/** Frequency tallies kept in a dictionary, as the dashboard statistics build them:
    `if (counts[k]) counts[k]++; else counts[k] = 1;` for every key in turn. */
module Tallies {

  /** How many times `k` occurs in `s`. */
  function Count<K(==)>(s: seq<K>, k: K): nat
    decreases |s|
  {
    if |s| == 0 then 0
    else Count(s[..|s| - 1], k) + (if s[|s| - 1] == k then 1 else 0)
  }

  /** The dictionary the counting loop leaves behind after reading `s` from left to right. */
  function Tally<K(==,!new)>(s: seq<K>): (m: map<K, nat>)
    ensures forall k :: k in m <==> k in s
    ensures forall k :: k in m ==> m[k] == Count(s, k) && m[k] >= 1
    decreases |s|
  {
    if |s| == 0 then map[]
    else
      var prev := Tally(s[..|s| - 1]);
      var k := s[|s| - 1];
      assert forall x :: x in s <==> x in s[..|s| - 1] || x == k;
      if k in prev then prev[k := prev[k] + 1]
      else CountAbsent(s[..|s| - 1], k); prev[k := 1]
  }

  /** One more key read: its counter goes up by one (or starts at one) and no other changes. */
  lemma TallySnoc<K(!new)>(s: seq<K>, k: K)
    ensures Tally(s + [k]) == Tally(s)[k := (if k in Tally(s) then Tally(s)[k] else 0) + 1]
  {
    assert (s + [k])[..|s|] == s;
  }

  /** The source's step `if (counts[k]) counts[k]++; else counts[k] = 1;` turns the
      tally of `s` into the tally of `s + [k]`: a present counter is never 0, so the
      truthiness test is the membership test. */
  lemma BumpTally<K(!new)>(m: map<K, nat>, s: seq<K>, k: K)
    requires m == Tally(s)
    ensures k in m && m[k] != 0 ==> m[k := m[k] + 1] == Tally(s + [k])
    ensures !(k in m && m[k] != 0) ==> m[k := 1] == Tally(s + [k])
  {
    TallySnoc(s, k);
  }

  /** The count is the multiplicity of the key in the list taken as a bag. */
  lemma {:induction false} CountIsMultiplicity<K>(s: seq<K>, k: K)
    ensures Count(s, k) == multiset(s)[k]
    decreases |s|
  {
    if |s| > 0 {
      var prefix := s[..|s| - 1];
      assert s == prefix + [s[|s| - 1]];
      assert multiset(s) == multiset(prefix) + multiset{s[|s| - 1]};
      CountIsMultiplicity(prefix, k);
    }
  }

  /** A key absent from the list counts zero times. */
  lemma {:induction false} CountAbsent<K>(s: seq<K>, k: K)
    requires k !in s
    ensures Count(s, k) == 0
    decreases |s|
  {
    if |s| > 0 {
      assert s[..|s| - 1] <= s;
      CountAbsent(s[..|s| - 1], k);
    }
  }

  /** The sum of the counters in a dictionary. */
  ghost function Total<K>(m: map<K, nat>): nat
    decreases |m.Keys|
  {
    if m == map[] then 0
    else
      var k := Pick(m);
      m[k] + Total(m - {k})
  }

  ghost function Pick<K>(m: map<K, nat>): (k: K)
    requires m != map[]
    ensures k in m
  {
    var k :| k in m.Keys; k
  }

  lemma RemoveShrinks<K>(m: map<K, nat>, k: K)
    requires k in m
    ensures |(m - {k}).Keys| == |m.Keys| - 1
  {
    assert (m - {k}).Keys == m.Keys - {k};
  }

  /** The total does not depend on which counter is taken out first. */
  lemma {:induction false} TotalRemove<K>(m: map<K, nat>, k: K)
    requires k in m
    ensures Total(m) == m[k] + Total(m - {k})
    decreases |m.Keys|
  {
    var j := Pick(m);
    if j != k {
      RemoveShrinks(m, j);
      RemoveShrinks(m, k);
      TotalRemove(m - {j}, k);
      TotalRemove(m - {k}, j);
      assert m - {j} - {k} == m - {k} - {j};
    }
  }

  /** Incrementing one counter (or starting it at one) raises the total by one. */
  lemma TotalIncrement<K>(m: map<K, nat>, k: K)
    ensures Total(m[k := (if k in m then m[k] else 0) + 1]) == Total(m) + 1
  {
    var m' := m[k := (if k in m then m[k] else 0) + 1];
    TotalRemove(m', k);
    assert m' - {k} == m - {k};
    if k in m {
      TotalRemove(m, k);
    } else {
      assert m - {k} == m;
    }
  }

  /** The counters of a tally add up to the length of the list tallied. */
  lemma {:induction false} TotalTally<K(!new)>(s: seq<K>)
    ensures Total(Tally(s)) == |s|
    decreases |s|
  {
    if |s| > 0 {
      var prefix := s[..|s| - 1];
      var k := s[|s| - 1];
      assert prefix + [k] == s;
      TallySnoc(prefix, k);
      TotalTally(prefix);
      TotalIncrement(Tally(prefix), k);
    }
  }
}
