// Sums over sequences and what their order means to them.
module Folds {
  function SumBy<T>(f: T -> int, s: seq<T>): int {
    if s == [] then 0 else SumBy(f, s[..|s| - 1]) + f(s[|s| - 1])
  }

  lemma {:induction false} SumByConcat<T>(f: T -> int, s: seq<T>, t: seq<T>)
    ensures SumBy(f, s + t) == SumBy(f, s) + SumBy(f, t)
    decreases |t|
  {
    if t == [] {
      assert s + t == s;
    } else {
      assert (s + t)[..|s + t| - 1] == s + t[..|t| - 1];
      SumByConcat(f, s, t[..|t| - 1]);
    }
  }

  lemma SumByOne<T>(f: T -> int, x: T)
    ensures SumBy(f, [x]) == f(x)
  {
    assert [x][..0] == [];
  }

  // Taking one element out of the middle takes its summand.
  lemma SumByWithout<T>(f: T -> int, s: seq<T>, k: nat)
    requires k < |s|
    ensures SumBy(f, s) == SumBy(f, s[..k] + s[k + 1..]) + f(s[k])
  {
    hide SumBy;
    assert s == s[..k] + [s[k]] + s[k + 1..];
    SumByConcat(f, s[..k] + [s[k]], s[k + 1..]);
    SumByConcat(f, s[..k], [s[k]]);
    SumByConcat(f, s[..k], s[k + 1..]);
    SumByOne(f, s[k]);
  }

  lemma {:induction false} SumByAnyOrder<T>(f: T -> int, s: seq<T>, t: seq<T>)
    requires multiset(s) == multiset(t)
    ensures SumBy(f, s) == SumBy(f, t)
    decreases |s|
  {
    if s == [] {
      assert |multiset(t)| == |t|;
    } else {
      var n := |s| - 1;
      assert s == s[..n] + [s[n]];
      assert s[n] in multiset(t);
      var k :| 0 <= k < |t| && t[k] == s[n];
      assert t == t[..k] + [t[k]] + t[k + 1..];
      SumByWithout(f, t, k);
      calc {
        multiset(s[..n]);
        multiset(s) - multiset{s[n]};
        multiset(t[..k] + [t[k]] + t[k + 1..]) - multiset{t[k]};
        multiset(t[..k]) + multiset(t[k + 1..]);
        multiset(t[..k] + t[k + 1..]);
      }
      SumByAnyOrder(f, s[..n], t[..k] + t[k + 1..]);
    }
  }

  function MaxBy<T>(f: T -> nat, s: seq<T>): (m: nat)
    ensures forall i | 0 <= i < |s| :: f(s[i]) <= m
  {
    if s == [] then 0
    else
      var m, last := MaxBy(f, s[..|s| - 1]), f(s[|s| - 1]);
      if m < last then last else m
  }

  lemma {:induction false} MaxByIsLeast<T>(f: T -> nat, s: seq<T>, bound: nat)
    requires forall i | 0 <= i < |s| :: f(s[i]) <= bound
    ensures MaxBy(f, s) <= bound
  {
    if s != [] {
      MaxByIsLeast(f, s[..|s| - 1], bound);
    }
  }

  lemma MaxByAnyOrder<T>(f: T -> nat, s: seq<T>, t: seq<T>)
    requires multiset(s) == multiset(t)
    ensures MaxBy(f, s) <= MaxBy(f, t)
  {
    forall i | 0 <= i < |s|
      ensures f(s[i]) <= MaxBy(f, t)
    {
      assert s[i] in multiset(t);
    }
    MaxByIsLeast(f, s, MaxBy(f, t));
  }
}
