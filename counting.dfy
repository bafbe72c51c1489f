/** Counting names into a dictionary, and the sum of a dictionary's counts. */
module Counting {

  /** `m.get(k, 0)` */
  function Get(m: map<string, nat>, k: string): nat
  {
    if k in m then m[k] else 0
  }

  /** The dictionary built by `m[k] = m.get(k, 0) + 1` for each name of `s`, left to right, from `{}`. */
  function Tally(s: seq<string>): map<string, nat>
    decreases |s|
  {
    if s == [] then map[]
    else
      var m := Tally(s[..|s| - 1]);
      var k := s[|s| - 1];
      m[k := Get(m, k) + 1]
  }

  /** Counting one more name updates only that name's entry. */
  lemma TallySnoc(s: seq<string>, k: string)
    ensures Tally(s + [k]) == Tally(s)[k := Get(Tally(s), k) + 1]
  {
    assert (s + [k])[..|s|] == s;
  }

  /** The sum of all counts in a dictionary. */
  ghost function Sum(m: map<string, nat>): nat
    decreases |m|
  {
    if m == map[] then 0
    else
      var k :| k in m;
      assert |m - {k}| < |m| by { assert (m - {k}).Keys == m.Keys - {k}; }
      m[k] + Sum(m - {k})
  }

  lemma {:induction false} SumRemove(m: map<string, nat>, k: string)
    requires k in m
    ensures Sum(m) == m[k] + Sum(m - {k})
    decreases |m|
  {
    var j :| j in m && Sum(m) == m[j] + Sum(m - {j});
    if j != k {
      assert (m - {j}).Keys == m.Keys - {j};
      assert (m - {k}).Keys == m.Keys - {k};
      SumRemove(m - {j}, k);
      SumRemove(m - {k}, j);
      assert m - {j} - {k} == m - {k} - {j};
    }
  }

  /** Changing one count changes the sum by the difference. */
  lemma SumUpdate(m: map<string, nat>, k: string, v: nat)
    ensures Sum(m[k := v]) + Get(m, k) == Sum(m) + v
  {
    SumRemove(m[k := v], k);
    assert m[k := v] - {k} == m - {k};
    if k in m {
      SumRemove(m, k);
    } else {
      assert m - {k} == m;
    }
  }

  /** Each name's count is its number of occurrences. */
  lemma {:induction false} TallyCounts(s: seq<string>)
    ensures forall k :: Get(Tally(s), k) == multiset(s)[k]
    decreases |s|
  {
    if s != [] {
      var p := s[..|s| - 1];
      TallyCounts(p);
      assert s == p + [s[|s| - 1]];
    }
  }

  /** The dictionary has a key for exactly the names that occur. */
  lemma {:induction false} TallyKeys(s: seq<string>)
    ensures forall k :: k in Tally(s) <==> k in s
    decreases |s|
  {
    if s != [] {
      var p := s[..|s| - 1];
      TallyKeys(p);
      assert s == p + [s[|s| - 1]];
    }
  }

  /** The counts add up to the number of names. */
  lemma {:induction false} TallySum(s: seq<string>)
    ensures Sum(Tally(s)) == |s|
    decreases |s|
  {
    if s != [] {
      var p := s[..|s| - 1];
      TallySum(p);
      SumUpdate(Tally(p), s[|s| - 1], Get(Tally(p), s[|s| - 1]) + 1);
    }
  }

  /** No key is present with a count of zero. */
  lemma TallyPositive(s: seq<string>)
    ensures forall k :: k in Tally(s) ==> Tally(s)[k] >= 1
  {
    TallyCounts(s);
    TallyKeys(s);
    forall k | k in Tally(s) ensures Tally(s)[k] >= 1 {
      assert Get(Tally(s), k) == multiset(s)[k];
    }
  }
}
