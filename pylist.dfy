/**
 * The Python list operations the dashboard relies on: counting the members
 * of a comprehension, `list.remove`, and the order-preserving subsequence a
 * filtering comprehension produces.
 */
module PyList {

  /** `len([x for x in s if P(x)])`. */
  function Count<T>(s: seq<T>, P: T -> bool): (n: nat)
    ensures n <= |s|
  {
    if s == [] then 0 else (if P(s[0]) then 1 else 0) + Count(s[1..], P)
  }

  lemma {:induction false} CountAppend<T>(a: seq<T>, b: seq<T>, P: T -> bool)
    ensures Count(a + b, P) == Count(a, P) + Count(b, P)
  {
    if a != [] {
      assert (a + b)[1..] == a[1..] + b;
      CountAppend(a[1..], b, P);
    } else {
      assert a + b == b;
    }
  }

  /** Counting a property that holds wherever another does cannot give a larger count. */
  lemma {:induction false} CountMonotone<T>(s: seq<T>, P: T -> bool, Q: T -> bool)
    requires forall x :: P(x) ==> Q(x)
    ensures Count(s, P) <= Count(s, Q)
  {
    if s != [] {
      CountMonotone(s[1..], P, Q);
    }
  }

  /** `r` can be obtained from `s` by deleting elements, keeping the order of the rest. */
  ghost predicate IsSubsequence<T>(r: seq<T>, s: seq<T>)
    decreases |s|
  {
    r == [] || (s != [] && ((r[0] == s[0] && IsSubsequence(r[1..], s[1..])) || IsSubsequence(r, s[1..])))
  }

  /** `s.index(x)`: the position of the first element equal to `x`. */
  function FirstIndex<T(==)>(s: seq<T>, x: T): (i: nat)
    requires x in s
    ensures i < |s| && s[i] == x
    ensures forall j :: 0 <= j < i ==> s[j] != x
  {
    if s[0] == x then 0 else 1 + FirstIndex(s[1..], x)
  }

  /** `s.remove(x)` guarded by `if x in s`: drops the first element equal to `x`, if there is one. */
  function RemoveFirst<T(==)>(s: seq<T>, x: T): seq<T> {
    if s == [] then []
    else if s[0] == x then s[1..]
    else [s[0]] + RemoveFirst(s[1..], x)
  }

  /** One occurrence of `x` fewer, if there was one; every other element as often as before. */
  lemma {:induction false} RemoveFirstCounts<T>(s: seq<T>, x: T)
    ensures multiset(RemoveFirst(s, x)) == multiset(s) - multiset{x}
  {
    if s != [] {
      assert s == [s[0]] + s[1..];
      if s[0] != x {
        RemoveFirstCounts(s[1..], x);
      }
    }
  }

  /** Nothing is removed when no element equals `x`. */
  lemma {:induction false} RemoveFirstAbsent<T>(s: seq<T>, x: T)
    requires x !in s
    ensures RemoveFirst(s, x) == s
  {
    if s != [] {
      RemoveFirstAbsent(s[1..], x);
      assert s == [s[0]] + s[1..];
    }
  }

  lemma ConsSplit<T>(s: seq<T>, i: nat)
    requires i + 1 < |s|
    ensures [s[0]] + (s[1..][..i] + s[1..][i + 1..]) == s[..i + 1] + s[i + 2..]
  {
    assert [s[0]] + s[1..][..i] == s[..i + 1];
    assert s[1..][i + 1..] == s[i + 2..];
  }

  /** Exactly the first element equal to `x` is removed; everything before and after it stays in order. */
  lemma {:induction false} RemoveFirstPosition<T>(s: seq<T>, x: T)
    requires x in s
    ensures RemoveFirst(s, x) == s[..FirstIndex(s, x)] + s[FirstIndex(s, x) + 1..]
  {
    if s[0] != x {
      var tail := s[1..];
      RemoveFirstPosition(tail, x);
      var i := FirstIndex(tail, x);
      assert FirstIndex(s, x) == i + 1;
      ConsSplit(s, i);
    }
  }
}
