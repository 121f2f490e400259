/** Ranking of grouped results, as `groupby(...).mean().nlargest(n)` and
    `sort_values(ascending=False).head(n)` produce it: scores descending, an
    undefined score (NaN) after every defined one, and equal scores in
    group-key order, since `groupby` lists its groups by ascending key. */
module Ranking {
  import opened Options
  import opened Strings

  /** One group of a grouped aggregate: its key and its (possibly undefined)
      value. */
  datatype Ranked = Ranked(key: string, score: Option<real>)

  /** `a` is listed before `b`. */
  predicate Precedes(a: Ranked, b: Ranked)
  {
    match (a.score, b.score)
    case (Some(x), Some(y)) => x > y || (x == y && StrLt(a.key, b.key))
    case (Some(_), None) => true
    case (None, Some(_)) => false
    case (None, None) => StrLt(a.key, b.key)
  }

  lemma PrecedesIrreflexive(a: Ranked)
    ensures !Precedes(a, a)
  {
    StrLtIrreflexive(a.key);
  }

  lemma PrecedesTransitive(a: Ranked, b: Ranked, c: Ranked)
    requires Precedes(a, b) && Precedes(b, c)
    ensures Precedes(a, c)
  {
    if StrLt(a.key, b.key) && StrLt(b.key, c.key) {
      StrLtTransitive(a.key, b.key, c.key);
    }
  }

  /** Groups with distinct keys are always ordered one way or the other. */
  lemma PrecedesTotal(a: Ranked, b: Ranked)
    requires a.key != b.key
    ensures Precedes(a, b) || Precedes(b, a)
  {
    StrLtTotal(a.key, b.key);
  }

  predicate SortedDesc(s: seq<Ranked>)
  {
    forall i, j :: 0 <= i < j < |s| ==> !Precedes(s[j], s[i])
  }

  /** No group key occurs twice, as in any `groupby` result. */
  predicate DistinctKeys(s: seq<Ranked>)
  {
    forall i, j :: 0 <= i < j < |s| ==> s[i].key != s[j].key
  }

  /** An element at two positions is counted at least twice. */
  lemma CountedTwice(s: seq<Ranked>, i: nat, j: nat)
    requires i < j < |s| && s[i] == s[j]
    ensures multiset(s)[s[i]] >= 2
  {
    assert s == s[..j] + [s[j]] + s[j + 1..];
    assert s[..j][i] == s[i];
    assert multiset(s) == multiset(s[..j]) + multiset{s[j]} + multiset(s[j + 1..]);
  }

  /** In a sequence with distinct keys every element is counted once. */
  lemma CountedOnce(s: seq<Ranked>, a: nat)
    requires DistinctKeys(s) && a < |s|
    ensures multiset(s)[s[a]] == 1
  {
    assert s == s[..a] + [s[a]] + s[a + 1..];
    assert multiset(s) == multiset(s[..a]) + multiset{s[a]} + multiset(s[a + 1..]);
    assert s[a] !in s[..a] by {
      forall k | 0 <= k < a ensures s[..a][k] != s[a] {
        assert s[..a][k] == s[k];
      }
    }
    var tail := s[a + 1..];
    assert s[a] !in tail by {
      forall k | 0 <= k < |tail| ensures tail[k] != s[a] {
        assert tail[k] == s[a + 1 + k];
      }
    }
  }

  /** Drawing from a table with distinct keys never repeats a key. */
  lemma {:induction false} DistinctKeysKept(r: seq<Ranked>, s: seq<Ranked>)
    requires multiset(r) <= multiset(s)
    ensures DistinctKeys(s) ==> DistinctKeys(r)
  {
    if DistinctKeys(s) {
      DistinctKeysDrawn(r, s);
    }
  }

  lemma {:induction false} DistinctKeysDrawn(r: seq<Ranked>, s: seq<Ranked>)
    requires multiset(r) <= multiset(s) && DistinctKeys(s)
    ensures DistinctKeys(r)
  {
    forall i, j | 0 <= i < j < |r| ensures r[i].key != r[j].key {
      if r[i].key == r[j].key {
        assert r[i] in multiset(r) && r[j] in multiset(r);
        var a :| 0 <= a < |s| && s[a] == r[i];
        var b :| 0 <= b < |s| && s[b] == r[j];
        assert a == b;
        CountedTwice(r, i, j);
        CountedOnce(s, a);
        assert false;
      }
    }
  }

  function Insert(x: Ranked, s: seq<Ranked>): (r: seq<Ranked>)
    requires SortedDesc(s)
    ensures SortedDesc(r)
    ensures multiset(r) == multiset(s) + multiset{x}
  {
    if |s| == 0 then [x]
    else if Precedes(x, s[0]) then
      InsertFront(x, s);
      [x] + s
    else
      var rest := Insert(x, s[1..]);
      assert s == [s[0]] + s[1..];
      InsertBehind(x, s, rest);
      [s[0]] + rest
  }

  /** An element ranked above the head of a sorted list goes in front. */
  lemma InsertFront(x: Ranked, s: seq<Ranked>)
    requires SortedDesc(s) && |s| > 0 && Precedes(x, s[0])
    ensures SortedDesc([x] + s)
  {
    forall j | 0 <= j < |s| ensures !Precedes(s[j], x) {
      if Precedes(s[j], x) {
        PrecedesTransitive(s[j], x, s[0]);
        PrecedesIrreflexive(s[0]);
      }
    }
    var r := [x] + s;
    forall i, j | 0 <= i < j < |r| ensures !Precedes(r[j], r[i]) {
      assert r[j] == s[j - 1];
      if i > 0 {
        assert r[i] == s[i - 1];
      }
    }
  }

  /** Otherwise the head stays in front of the list `x` was inserted into. */
  lemma InsertBehind(x: Ranked, s: seq<Ranked>, rest: seq<Ranked>)
    requires SortedDesc(s) && |s| > 0 && !Precedes(x, s[0])
    requires SortedDesc(rest) && multiset(rest) == multiset(s[1..]) + multiset{x}
    ensures SortedDesc([s[0]] + rest)
  {
    forall j | 0 <= j < |rest| ensures !Precedes(rest[j], s[0]) {
      assert rest[j] in multiset(rest);
      if rest[j] != x {
        assert rest[j] in multiset(s[1..]);
        var k :| 0 <= k < |s[1..]| && s[1..][k] == rest[j];
        assert s[k + 1] == rest[j];
      }
    }
    var r := [s[0]] + rest;
    forall i, j | 0 <= i < j < |r| ensures !Precedes(r[j], r[i]) {
      assert r[j] == rest[j - 1];
      if i > 0 {
        assert r[i] == rest[i - 1];
      }
    }
  }

  /** A stable descending sort: a permutation in `Precedes` order. */
  function Sort(s: seq<Ranked>): (r: seq<Ranked>)
    ensures SortedDesc(r)
    ensures multiset(r) == multiset(s)
  {
    if |s| == 0 then []
    else
      assert s == [s[0]] + s[1..];
      Insert(s[0], Sort(s[1..]))
  }

  function Min(a: nat, b: nat): nat
  {
    if a <= b then a else b
  }

  lemma HeadRanksFirst(sorted: seq<Ranked>, m: nat)
    requires SortedDesc(sorted) && m <= |sorted|
    ensures forall x, y :: x in sorted && x !in sorted[..m] && y in sorted[..m] ==> !Precedes(x, y)
  {
    forall x, y | x in sorted && x !in sorted[..m] && y in sorted[..m] ensures !Precedes(x, y) {
      var j :| 0 <= j < |sorted| && sorted[j] == x;
      var i :| 0 <= i < m && sorted[..m][i] == y;
    }
  }

  lemma SameElements(a: seq<Ranked>, b: seq<Ranked>)
    requires multiset(a) == multiset(b)
    ensures |a| == |b|
    ensures forall x :: x in a <==> x in b
  {
    assert |a| == |multiset(a)|;
    assert |b| == |multiset(b)|;
    forall x ensures x in a <==> x in b {
      assert x in a <==> x in multiset(a);
      assert x in b <==> x in multiset(b);
    }
  }

  /** The first `n` groups in ranking order. Nothing left out ranks above
      anything kept. */
  function TopN(s: seq<Ranked>, n: nat): (r: seq<Ranked>)
    ensures |r| == Min(n, |s|)
    ensures SortedDesc(r)
    ensures multiset(r) <= multiset(s)
    ensures DistinctKeys(s) ==> DistinctKeys(r)
    ensures forall x, y :: x in s && x !in r && y in r ==> !Precedes(x, y)
  {
    var sorted := Sort(s);
    SameElements(sorted, s);
    var m := Min(n, |sorted|);
    assert sorted == sorted[..m] + sorted[m..];
    assert multiset(sorted) == multiset(sorted[..m]) + multiset(sorted[m..]);
    HeadRanksFirst(sorted, m);
    DistinctKeysKept(sorted[..m], s);
    sorted[..m]
  }
}
