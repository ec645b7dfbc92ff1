/**
 * Occurrence tallies: a map from a key to the number of times it occurs in
 * a sequence. A watchlist keeps one for the languages and one for the
 * studios of its movies, and updates it one movie at a time with Bump
 * (when a movie is added) and Drop (when one is removed).
 */
module Tallies {

  /** No element occurs twice in s. */
  ghost predicate Distinct<T>(s: seq<T>) {
    forall i, j :: 0 <= i < j < |s| ==> s[i] != s[j]
  }

  /** The number of occurrences of k in s. */
  function Count(s: seq<string>, k: string): nat {
    if s == [] then 0 else (if s[0] == k then 1 else 0) + Count(s[1..], k)
  }

  /** The tally of s: every key that occurs in s, mapped to its number of occurrences. */
  function TallyOf(s: seq<string>): map<string, int> {
    map k | k in s :: Count(s, k)
  }

  /** Every value of m is at least 1. */
  ghost predicate Positive(m: map<string, int>) {
    forall k :: k in m ==> m[k] >= 1
  }

  /** Counting k once more: a new key starts at 1, a present one goes up by one. */
  function Bump(m: map<string, int>, k: string): (r: map<string, int>)
    ensures r.Keys == m.Keys + {k}
  {
    if k in m then m[k := m[k] + 1] else m[k := 1]
  }

  /** Counting k once less: a key at 1 is deleted, any other is decreased by one. */
  function Drop(m: map<string, int>, k: string): (r: map<string, int>)
    requires k in m
    ensures r.Keys <= m.Keys
  {
    if m[k] == 1 then m - {k} else m[k := m[k] - 1]
  }

  /** The sum of the values of m. */
  ghost function Sum(m: map<string, int>): int {
    SumOver(m, m.Keys)
  }

  /** The sum of the values of m at keys, taken one key at a time. */
  ghost function SumOver(m: map<string, int>, keys: set<string>): int
    requires keys <= m.Keys
    decreases keys
  {
    if keys == {} then 0
    else
      var k :| k in keys;
      m[k] + SumOver(m, keys - {k})
  }

  /** k occurs in s exactly when its count is positive. */
  lemma {:induction false} CountPositive(s: seq<string>, k: string)
    ensures Count(s, k) > 0 <==> k in s
  {
    if s != [] {
      CountPositive(s[1..], k);
      assert s == [s[0]] + s[1..];
    }
  }

  /** Appending x adds one to the count of x and leaves every other count alone. */
  lemma {:induction false} CountAppend(s: seq<string>, x: string, k: string)
    ensures Count(s + [x], k) == Count(s, k) + (if x == k then 1 else 0)
  {
    if s == [] {
      assert [x][1..] == [];
    } else {
      assert (s + [x])[1..] == s[1..] + [x];
      CountAppend(s[1..], x, k);
    }
  }

  /** The keys of a tally are exactly the elements of the sequence, and every count is at least 1. */
  lemma TallyKeys(s: seq<string>)
    ensures TallyOf(s).Keys == set x | x in s
    ensures Positive(TallyOf(s))
    ensures forall k :: k in TallyOf(s) ==> TallyOf(s)[k] == Count(s, k)
  {
    forall k | k in s ensures Count(s, k) >= 1 {
      CountPositive(s, k);
    }
  }

  /** Appending x to the sequence bumps its tally at x. */
  lemma TallyAppend(s: seq<string>, x: string)
    ensures TallyOf(s + [x]) == Bump(TallyOf(s), x)
  {
    var t, b := TallyOf(s + [x]), Bump(TallyOf(s), x);
    forall k | k in s + [x] ensures t[k] == b[k] {
      CountAppend(s, x, k);
      CountPositive(s, k);
    }
    assert t.Keys == b.Keys;
  }

  /** Putting x in front of the sequence bumps its tally at x. */
  lemma TallyPrepend(x: string, s: seq<string>)
    ensures TallyOf([x] + s) == Bump(TallyOf(s), x)
  {
    var t, b := TallyOf([x] + s), Bump(TallyOf(s), x);
    assert ([x] + s)[1..] == s;
    forall k | k in [x] + s ensures t[k] == b[k] {
      CountPositive(s, k);
    }
    assert t.Keys == b.Keys;
  }

  /** Drop undoes Bump on a tally whose counts are all positive. */
  lemma DropBump(m: map<string, int>, k: string)
    requires Positive(m)
    ensures Drop(Bump(m, k), k) == m
  {
  }

  /** Removing the head of the sequence drops its tally at the head. */
  lemma TallyRemoveHead(s: seq<string>)
    requires s != []
    ensures s[0] in TallyOf(s)
    ensures TallyOf(s[1..]) == Drop(TallyOf(s), s[0])
  {
    assert s == [s[0]] + s[1..];
    TallyPrepend(s[0], s[1..]);
    TallyKeys(s[1..]);
    DropBump(TallyOf(s[1..]), s[0]);
  }

  /** Taking one key out of the sum. */
  lemma {:induction false} SumOverRemove(m: map<string, int>, keys: set<string>, k: string)
    requires keys <= m.Keys && k in keys
    ensures SumOver(m, keys) == m[k] + SumOver(m, keys - {k})
    decreases keys
  {
    var j :| j in keys && SumOver(m, keys) == m[j] + SumOver(m, keys - {j});
    if j != k {
      SumOverRemove(m, keys - {j}, k);
      SumOverRemove(m, keys - {k}, j);
      assert keys - {j} - {k} == keys - {k} - {j};
    }
  }

  /** The sum over a key set depends only on the values at those keys. */
  lemma {:induction false} SumOverAgree(m: map<string, int>, n: map<string, int>, keys: set<string>)
    requires keys <= m.Keys && keys <= n.Keys
    requires forall k :: k in keys ==> m[k] == n[k]
    ensures SumOver(m, keys) == SumOver(n, keys)
    decreases keys
  {
    if keys != {} {
      var k :| k in keys;
      SumOverRemove(m, keys, k);
      SumOverRemove(n, keys, k);
      SumOverAgree(m, n, keys - {k});
    }
  }

  /** Bump adds one to the sum. */
  lemma SumBump(m: map<string, int>, k: string)
    ensures Sum(Bump(m, k)) == Sum(m) + 1
  {
    var b := Bump(m, k);
    SumOverRemove(b, b.Keys, k);
    assert b[k] == (if k in m then m[k] else 0) + 1;
    if k in m {
      assert b.Keys - {k} == m.Keys - {k};
      SumOverAgree(b, m, m.Keys - {k});
      SumOverRemove(m, m.Keys, k);
    } else {
      assert b.Keys - {k} == m.Keys;
      SumOverAgree(b, m, m.Keys);
    }
  }

  /** The values of a tally add up to the length of the sequence. */
  lemma {:induction false} TallySum(s: seq<string>)
    ensures Sum(TallyOf(s)) == |s|
  {
    if s == [] {
      assert TallyOf(s) == map[];
    } else {
      assert s == [s[0]] + s[1..];
      TallyPrepend(s[0], s[1..]);
      SumBump(TallyOf(s[1..]), s[0]);
      TallySum(s[1..]);
    }
  }
}
