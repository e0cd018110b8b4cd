/** Sequences with the same elements. */
module Permutations {

  lemma RemoveAt<T>(t: seq<T>, j: nat)
    requires j < |t|
    ensures multiset(t[..j] + t[j + 1..]) == multiset(t) - multiset{t[j]}
  {
    assert t == t[..j] + [t[j]] + t[j + 1..];
  }

  lemma Cancel<T>(m: multiset<T>, n: multiset<T>, x: T)
    ensures m + multiset{x} == n + multiset{x} ==> m == n
    ensures m + multiset{x} <= n ==> m <= n - multiset{x}
    ensures x in n ==> n - multiset{x} + multiset{x} == n
  {
    assert m == m + multiset{x} - multiset{x} && n == n + multiset{x} - multiset{x};
  }

  lemma Append<T>(s: seq<T>, x: T)
    ensures multiset(s + [x]) == multiset(s) + multiset{x}
    ensures (s + [x])[..|s|] == s
  {
  }

  lemma MoveOut<T>(s: seq<T>, t: seq<T>)
    requires s != []
    ensures multiset(s + t) == multiset(s[..|s| - 1] + t) + multiset{s[|s| - 1]}
  {
    DropLast(s);
  }

  lemma DropLast<T>(s: seq<T>)
    requires s != []
    ensures multiset(s) == multiset(s[..|s| - 1]) + multiset{s[|s| - 1]}
  {
    assert s == s[..|s| - 1] + [s[|s| - 1]];
  }

  lemma SameLength<T>(s: seq<T>, t: seq<T>)
    requires multiset(s) == multiset(t)
    ensures |s| == |t|
  {
    assert |multiset(s)| == |s| && |multiset(t)| == |t|;
  }

  lemma SameInit<T>(s: seq<T>, t: seq<T>)
    requires multiset(s) == multiset(t) && s != [] && t != [] && s[|s| - 1] == t[|t| - 1]
    ensures multiset(s[..|s| - 1]) == multiset(t[..|t| - 1])
    ensures s[..|s| - 1] == t[..|t| - 1] ==> s == t
  {
    DropLast(s);
    DropLast(t);
    Cancel(multiset(s[..|s| - 1]), multiset(t[..|t| - 1]), s[|s| - 1]);
    assert s == s[..|s| - 1] + [s[|s| - 1]] && t == t[..|t| - 1] + [t[|t| - 1]];
  }

  lemma SubLength<T>(s: seq<T>, t: seq<T>)
    requires multiset(s) <= multiset(t)
    ensures |s| <= |t|
  {
    assert multiset(t) == multiset(s) + (multiset(t) - multiset(s));
    assert |multiset(s)| == |s| && |multiset(t)| == |t|;
  }

  lemma FindIndex<T>(x: T, t: seq<T>) returns (j: nat)
    requires x in multiset(t)
    ensures j < |t| && t[j] == x
  {
    j :| 0 <= j < |t| && t[j] == x;
  }

  /** Where the last element of `s` sits in a permutation `t`; without it the two
      sequences are still permutations of each other. */
  lemma FindLast<T>(s: seq<T>, t: seq<T>) returns (j: nat)
    requires s != [] && multiset(s) == multiset(t)
    ensures j < |t| && t[j] == s[|s| - 1]
    ensures multiset(s[..|s| - 1]) == multiset(t[..j] + t[j + 1..])
  {
    var x := s[|s| - 1];
    assert x in multiset(t);
    j :| 0 <= j < |t| && t[j] == x;
    RemoveAt(t, j);
    assert s == s[..|s| - 1] + [x];
  }
}
