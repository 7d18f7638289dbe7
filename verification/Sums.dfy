/** Sums of integer sequences. */
module Sums {

  function SumTo(s: seq<int>, n: nat): int
    requires n <= |s|
  {
    if n == 0 then 0 else SumTo(s, n - 1) + s[n - 1]
  }

  function Sum(s: seq<int>): int {
    SumTo(s, |s|)
  }

  lemma {:induction false} SumToUpdate(s: seq<int>, i: nat, v: int, n: nat)
    requires i < |s| && n <= |s|
    ensures SumTo(s[i := v], n) == SumTo(s, n) + (if i < n then v - s[i] else 0)
  {
    if n > 0 { SumToUpdate(s, i, v, n - 1); }
  }

  lemma SumUpdate(s: seq<int>, i: nat, v: int)
    requires i < |s|
    ensures Sum(s[i := v]) == Sum(s) - s[i] + v
  {
    SumToUpdate(s, i, v, |s|);
  }

  lemma {:induction false} SumToAdd(a: seq<int>, b: seq<int>, c: seq<int>, n: nat)
    requires n <= |a| == |b| == |c| && forall i :: 0 <= i < |a| ==> c[i] == a[i] + b[i]
    ensures SumTo(c, n) == SumTo(a, n) + SumTo(b, n)
  {
    if n > 0 { SumToAdd(a, b, c, n - 1); }
  }

  lemma {:induction false} SumToScale(a: seq<int>, b: seq<int>, k: int, n: nat)
    requires n <= |a| == |b| && forall i :: 0 <= i < |a| ==> b[i] == k * a[i]
    ensures SumTo(b, n) == k * SumTo(a, n)
  {
    if n > 0 { SumToScale(a, b, k, n - 1); }
  }

  lemma {:induction false} SumToLe(a: seq<int>, b: seq<int>, n: nat)
    requires n <= |a| == |b| && forall i :: 0 <= i < |a| ==> a[i] <= b[i]
    ensures SumTo(a, n) <= SumTo(b, n)
  {
    if n > 0 { SumToLe(a, b, n - 1); }
  }

  /** Termwise below and equal in total means equal. */
  lemma {:induction false} SumToPinned(a: seq<int>, b: seq<int>, n: nat, i: nat)
    requires i < n <= |a| == |b| && (forall j :: 0 <= j < |a| ==> a[j] <= b[j]) && SumTo(a, n) == SumTo(b, n)
    ensures a[i] == b[i]
  {
    SumToLe(a, b, n - 1);
    if i < n - 1 { SumToPinned(a, b, n - 1, i); }
  }

  lemma {:induction false} SumToZero(s: seq<int>, n: nat)
    requires n <= |s| && forall i :: 0 <= i < |s| ==> s[i] == 0
    ensures SumTo(s, n) == 0
  {
    if n > 0 { SumToZero(s, n - 1); }
  }

  lemma {:induction false} SumToConst(s: seq<int>, k: int, n: nat)
    requires n <= |s| && forall i :: 0 <= i < |s| ==> s[i] == k
    ensures SumTo(s, n) == n * k
  {
    if n > 0 {
      SumToConst(s, k, n - 1);
      assert n * k == (n - 1) * k + k;
    }
  }

  lemma {:induction false} SumToPositive(s: seq<int>, n: nat)
    requires n <= |s| && SumTo(s, n) > 0
    ensures exists i :: 0 <= i < |s| && s[i] > 0
  {
    if s[n - 1] <= 0 { SumToPositive(s, n - 1); }
  }
}
