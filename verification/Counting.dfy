/** Counting the elements of a table that satisfy a condition. */
module Counting {

  function Count<T>(s: seq<T>, p: T -> bool): nat
    decreases |s|
  {
    if s == [] then 0
    else Count(s[..|s| - 1], p) + if p(s[|s| - 1]) then 1 else 0
  }

  lemma {:induction false} CountOfConcat<T>(a: seq<T>, b: seq<T>, p: T -> bool)
    ensures Count(a + b, p) == Count(a, p) + Count(b, p)
    decreases |b|
  {
    if b == [] {
      assert a + b == a;
    } else {
      assert (a + b)[..|a + b| - 1] == a + b[..|b| - 1];
      CountOfConcat(a, b[..|b| - 1], p);
    }
  }

  lemma {:induction false} CountedIffPresent<T>(s: seq<T>, p: T -> bool)
    ensures Count(s, p) > 0 <==> exists i | 0 <= i < |s| :: p(s[i])
    decreases |s|
  {
    if s != [] {
      var rest := s[..|s| - 1];
      CountedIffPresent(rest, p);
      if i :| 0 <= i < |s| && p(s[i]) {
        if i < |rest| { assert p(rest[i]); }
      }
      if i :| 0 <= i < |rest| && p(rest[i]) { assert p(s[i]); }
    }
  }

  lemma {:induction false} SameCount<T>(s: seq<T>, p: T -> bool, q: T -> bool)
    requires forall i | 0 <= i < |s| :: p(s[i]) <==> q(s[i])
    ensures Count(s, p) == Count(s, q)
    decreases |s|
  {
    if s != [] {
      SameCount(s[..|s| - 1], p, q);
    }
  }

  /** A condition met at one position only is counted once. */
  lemma CountedOnce<T>(s: seq<T>, p: T -> bool, k: nat)
    requires k < |s| && p(s[k])
    requires forall i | 0 <= i < |s| && i != k :: !p(s[i])
    ensures Count(s, p) == 1
  {
    var before, after := s[..k], s[k + 1..];
    assert s == before + [s[k]] + after;
    CountOfConcat(before + [s[k]], after, p);
    CountOfConcat(before, [s[k]], p);
    CountedIffPresent(before, p);
    CountedIffPresent(after, p);
    assert [s[k]][..0] == [];
  }

  /** A condition counted at most once is met at one position at most. */
  lemma CountedOnceIsUnique<T>(s: seq<T>, p: T -> bool, i: nat, j: nat)
    requires i < |s| && j < |s| && p(s[i]) && p(s[j])
    requires Count(s, p) <= 1
    ensures i == j
  {
    if i != j {
      var low, high := if i < j then i else j, if i < j then j else i;
      var left, right := s[..high], s[high..];
      assert s == left + right;
      CountOfConcat(left, right, p);
      assert p(left[low]) && p(right[0]);
      CountedIffPresent(left, p);
      CountedIffPresent(right, p);
      assert false;
    }
  }

  lemma LastElsewhere<T>(a: seq<T>, b: seq<T>) returns (i: nat)
    requires multiset(a) == multiset(b) && a != []
    ensures i < |b| && b[i] == a[|a| - 1]
    ensures b == b[..i] + [b[i]] + b[i + 1..]
    ensures multiset(b[..i] + b[i + 1..]) == multiset(a[..|a| - 1])
  {
    var rest, e := a[..|a| - 1], a[|a| - 1];
    assert a == rest + [e];
    assert e in multiset(b);
    i :| 0 <= i < |b| && b[i] == e;
    assert b == b[..i] + [e] + b[i + 1..];
    var others := b[..i] + b[i + 1..];
    assert multiset(b) == multiset(others) + multiset{e};
    assert multiset(a) == multiset(rest) + multiset{e};
    assert multiset(others) == multiset(b) - multiset{e};
  }

  /** Counting does not depend on the order of the table. */
  lemma {:induction false} CountIgnoresOrder<T>(a: seq<T>, b: seq<T>, p: T -> bool)
    requires multiset(a) == multiset(b)
    ensures Count(a, p) == Count(b, p)
    decreases |a|
  {
    if a == [] {
      assert |b| == |multiset(b)| == 0;
    } else {
      var i := LastElsewhere(a, b);
      var before, e, after := b[..i], b[i], b[i + 1..];
      CountIgnoresOrder(a[..|a| - 1], before + after, p);
      CountOfConcat(before, after, p);
      CountOfConcat(before + [e], after, p);
      CountOfConcat(before, [e], p);
      assert [e][..0] == [];
    }
  }
}
