/** Types and sequence facts shared by the other modules. */
module Basics {

  type Byte = b: int | 0 <= b < 256
  type Bytes = seq<Byte>

  datatype Option<+T> = None | Some(value: T)

  function Min(a: nat, b: nat): nat {
    if a <= b then a else b
  }

  function Decimal(n: nat): string {
    if n < 10 then [('0' as int + n) as char] else Decimal(n / 10) + Decimal(n % 10)
  }

  ghost predicate NoDup<T>(s: seq<T>) {
    forall i, j :: 0 <= i < j < |s| ==> s[i] != s[j]
  }

  function Filter<T>(s: seq<T>, keep: T -> bool): seq<T> {
    if s == [] then []
    else
      var last := s[|s| - 1];
      Filter(s[..|s| - 1], keep) + (if keep(last) then [last] else [])
  }

  lemma {:induction false} FilterKeeps<T>(s: seq<T>, keep: T -> bool)
    ensures |Filter(s, keep)| <= |s|
    ensures forall x :: x in Filter(s, keep) <==> x in s && keep(x)
  {
    if s != [] {
      FilterKeeps(s[..|s| - 1], keep);
      assert s == s[..|s| - 1] + [s[|s| - 1]];
    }
  }

  lemma {:induction false} FilterNoDup<T>(s: seq<T>, keep: T -> bool)
    requires NoDup(s)
    ensures NoDup(Filter(s, keep))
  {
    if s != [] {
      var front := s[..|s| - 1];
      FilterNoDup(front, keep);
      FilterKeeps(front, keep);
      assert s[|s| - 1] !in front;
    }
  }

  lemma {:induction false} FilterConcat<T>(a: seq<T>, b: seq<T>, keep: T -> bool)
    ensures Filter(a + b, keep) == Filter(a, keep) + Filter(b, keep)
  {
    if b == [] {
      assert a + b == a;
    } else {
      assert (a + b)[..|a + b| - 1] == a + b[..|b| - 1];
      FilterConcat(a, b[..|b| - 1], keep);
    }
  }

  lemma {:induction false} FilterDropsNone<T>(s: seq<T>, keep: T -> bool)
    requires forall i :: 0 <= i < |s| ==> keep(s[i])
    ensures Filter(s, keep) == s
  {
    if s != [] {
      FilterDropsNone(s[..|s| - 1], keep);
      assert s == s[..|s| - 1] + [s[|s| - 1]];
    }
  }

  lemma {:induction false} FilterDropsOne<T>(s: seq<T>, k: nat, keep: T -> bool)
    requires k < |s| && forall i :: 0 <= i < |s| ==> (keep(s[i]) <==> i != k)
    ensures Filter(s, keep) == s[..k] + s[k + 1..]
  {
    var n := |s| - 1;
    if k == n {
      FilterDropsNone(s[..n], keep);
      assert s[..n] + [] == s[..k] + s[k + 1..];
    } else {
      FilterDropsOne(s[..n], k, keep);
      assert s[..n][..k] + s[..n][k + 1..] + [s[n]] == s[..k] + s[k + 1..];
    }
  }

  /** Removes in place the elements that `keep` rejects, in the way Go code
      filters a slice onto its own backing array. */
  method FilterInPlace<T>(a: array<T>, n: nat, keep: T -> bool) returns (kept: nat)
    requires n <= a.Length
    modifies a
    ensures kept <= n
    ensures a[..kept] == Filter(old(a[..n]), keep)
    ensures forall i :: n <= i < a.Length ==> a[i] == old(a[i])
  {
    kept := 0;
    for i := 0 to n
      invariant kept <= i
      invariant a[..kept] == Filter(old(a[..i]), keep)
      invariant forall k :: i <= k < a.Length ==> a[k] == old(a[k])
    {
      assert old(a[..i + 1])[..i] == old(a[..i]);
      var candidate := a[i];
      if keep(candidate) {
        a[kept] := candidate;
        kept := kept + 1;
        assert a[..kept] == a[..kept - 1] + [candidate];
      }
    }
  }
}
