/** Totals over sequences, and the facts about them that the money proofs share. */
module Sums {

  function SumBy<T>(f: T -> int, s: seq<T>): int {
    if s == [] then 0 else SumBy(f, s[..|s| - 1]) + f(s[|s| - 1])
  }

  function Sum(s: seq<int>): int {
    SumBy((x: int) => x, s)
  }

  lemma SumByPush<T>(f: T -> int, s: seq<T>, x: T)
    ensures SumBy(f, s + [x]) == SumBy(f, s) + f(x)
  {
    assert (s + [x])[..|s|] == s;
  }

  lemma SumByConcat<T>(f: T -> int, s: seq<T>, t: seq<T>)
    ensures SumBy(f, s + t) == SumBy(f, s) + SumBy(f, t)
  {
    if t == [] {
      assert s + t == s;
    } else {
      var n := |t| - 1;
      assert s + t == (s + t[..n]) + [t[n]];
      SumByConcat(f, s, t[..n]);
      SumByPush(f, s + t[..n], t[n]);
    }
  }

  lemma SumByInsert<T>(f: T -> int, before: seq<T>, x: T, after: seq<T>)
    ensures SumBy(f, before + [x] + after) == f(x) + SumBy(f, before + after)
  {
    SumByConcat(f, before + [x], after);
    SumByPush(f, before, x);
    SumByConcat(f, before, after);
  }

  lemma SplitAround<T>(s: seq<T>, k: nat)
    requires k < |s|
    ensures s == s[..k] + [s[k]] + s[k + 1..]
  {
  }

  /** Taking one element out of a sequence takes exactly its value out of the total. */
  lemma SumByRemove<T>(f: T -> int, s: seq<T>, k: nat)
    requires k < |s|
    ensures SumBy(f, s) == f(s[k]) + SumBy(f, s[..k] + s[k + 1..])
  {
    SplitAround(s, k);
    SumByInsert(f, s[..k], s[k], s[k + 1..]);
  }

  lemma SumByUpdate<T>(f: T -> int, s: seq<T>, k: nat, x: T)
    requires k < |s|
    ensures SumBy(f, s[k := x]) == SumBy(f, s) - f(s[k]) + f(x)
  {
    var t := s[k := x];
    SumByRemove(f, s, k);
    SumByRemove(f, t, k);
    assert t[..k] + t[k + 1..] == s[..k] + s[k + 1..];
  }

  lemma MultisetRemove<T>(s: seq<T>, k: nat)
    requires k < |s|
    ensures multiset(s) == multiset(s[..k] + s[k + 1..]) + multiset{s[k]}
  {
    assert s == s[..k] + [s[k]] + s[k + 1..];
  }

  lemma MultisetCancel<T>(a: multiset<T>, b: multiset<T>, c: multiset<T>)
    requires a + c == b + c
    ensures a == b
  {
    assert a == (a + c) - c;
    assert b == (b + c) - c;
  }

  /** A total does not depend on the order of what is added up. */
  lemma {:induction false} SumByPermutation<T>(f: T -> int, s: seq<T>, t: seq<T>)
    requires multiset(s) == multiset(t)
    ensures SumBy(f, s) == SumBy(f, t)
    decreases |s|
  {
    if s == [] {
      assert |multiset(t)| == |t|;
    } else {
      var n := |s| - 1;
      assert s[n] in multiset(s);
      assert s[n] in multiset(t);
      var k :| 0 <= k < |t| && t[k] == s[n];
      var rest := t[..k] + t[k + 1..];
      MultisetRemove(s, n);
      MultisetRemove(t, k);
      assert s[..n] + s[n + 1..] == s[..n];
      MultisetCancel(multiset(s[..n]), multiset(rest), multiset{s[n]});
      SumByPermutation(f, s[..n], rest);
      SumByRemove(f, t, k);
    }
  }

  lemma {:induction false} SumByCongruent<T, U>(f: T -> int, s: seq<T>, g: U -> int, t: seq<U>)
    requires |s| == |t|
    requires forall i :: 0 <= i < |s| ==> f(s[i]) == g(t[i])
    ensures SumBy(f, s) == SumBy(g, t)
  {
    if s != [] {
      SumByCongruent(f, s[..|s| - 1], g, t[..|t| - 1]);
    }
  }

  lemma {:induction false} SumByAtMost<T, U>(f: T -> int, s: seq<T>, g: U -> int, t: seq<U>)
    requires |s| == |t|
    requires forall i :: 0 <= i < |s| ==> f(s[i]) <= g(t[i])
    ensures SumBy(f, s) <= SumBy(g, t)
  {
    if s != [] {
      SumByAtMost(f, s[..|s| - 1], g, t[..|t| - 1]);
    }
  }

  lemma {:induction false} SumByAdds<T>(f: T -> int, g: T -> int, h: T -> int, s: seq<T>)
    requires forall i :: 0 <= i < |s| ==> h(s[i]) == f(s[i]) + g(s[i])
    ensures SumBy(h, s) == SumBy(f, s) + SumBy(g, s)
  {
    if s != [] {
      SumByAdds(f, g, h, s[..|s| - 1]);
    }
  }
}
