/** Sequence helpers shared by the model of the presence record. */
module Sequences {

  /** No element occurs twice: the keys of a Python dict, in insertion order. */
  predicate NoDuplicates<T(==)>(s: seq<T>) {
    forall i, j :: 0 <= i < j < |s| ==> s[i] != s[j]
  }

  function Elements<T(!new)>(s: seq<T>): set<T> {
    set x | x in s
  }

  /** The elements of `s` that lie in `keep`, in their order in `s`. */
  function Filter<T(!new)>(s: seq<T>, keep: set<T>): (r: seq<T>)
    ensures |r| <= |s|
    decreases |s|
  {
    if s == [] then []
    else
      var init := Filter(s[..|s| - 1], keep);
      var last := s[|s| - 1];
      if last in keep then init + [last] else init
  }

  /** `s` with the first occurrence of `x` removed (what `del d[x]` does to the key order). */
  function RemoveValue<T(==)>(s: seq<T>, x: T): (r: seq<T>)
    ensures x in s ==> |r| == |s| - 1
    ensures x !in s ==> r == s
    decreases |s|
  {
    if s == [] then []
    else if s[0] == x then s[1..]
    else [s[0]] + RemoveValue(s[1..], x)
  }

  lemma NoDuplicatesAppend<T>(s: seq<T>, x: T)
    requires NoDuplicates(s) && x !in s
    ensures NoDuplicates(s + [x])
  {
  }

  lemma NoDuplicatesTail<T>(s: seq<T>)
    requires s != [] && NoDuplicates(s)
    ensures NoDuplicates(s[1..]) && s[0] !in s[1..]
  {
    forall i, j | 0 <= i < j < |s[1..]| ensures s[1..][i] != s[1..][j] {
      assert s[1..][i] == s[i + 1] && s[1..][j] == s[j + 1];
    }
  }

  lemma {:induction false} FilterMembers<T(!new)>(s: seq<T>, keep: set<T>)
    ensures forall x :: x in Filter(s, keep) <==> x in s && x in keep
    decreases |s|
  {
    if s != [] {
      FilterMembers(s[..|s| - 1], keep);
      assert s == s[..|s| - 1] + [s[|s| - 1]];
    }
  }

  lemma {:induction false} FilterNoDuplicates<T(!new)>(s: seq<T>, keep: set<T>)
    requires NoDuplicates(s)
    ensures NoDuplicates(Filter(s, keep))
    decreases |s|
  {
    if s != [] {
      var init, last := s[..|s| - 1], s[|s| - 1];
      assert NoDuplicates(init);
      FilterNoDuplicates(init, keep);
      FilterMembers(init, keep);
      assert last !in init;
    }
  }

  lemma {:induction false} RemoveValueMembers<T>(s: seq<T>, x: T)
    requires NoDuplicates(s)
    ensures NoDuplicates(RemoveValue(s, x))
    ensures forall y :: y in RemoveValue(s, x) <==> y in s && y != x
    decreases |s|
  {
    if s != [] {
      NoDuplicatesTail(s);
      if s[0] != x {
        RemoveValueMembers(s[1..], x);
        assert s == [s[0]] + s[1..];
      }
    }
  }

  lemma ElementsStep<T(!new)>(s: seq<T>, i: nat)
    requires i < |s|
    ensures Elements(s[..i + 1]) == Elements(s[..i]) + {s[i]}
  {
    assert s[..i + 1] == s[..i] + [s[i]];
  }

  /** One more element of `s` considered by `Filter`. */
  lemma FilterStep<T(!new)>(s: seq<T>, i: nat, keep: set<T>)
    requires i < |s|
    ensures Filter(s[..i + 1], keep) == Filter(s[..i], keep) + if s[i] in keep then [s[i]] else []
  {
    assert s[..i + 1][..i] == s[..i];
  }

  lemma {:induction false} FilterAppend<T(!new)>(a: seq<T>, b: seq<T>, keep: set<T>)
    ensures Filter(a + b, keep) == Filter(a, keep) + Filter(b, keep)
    decreases |b|
  {
    if b == [] {
      assert a + b == a;
    } else {
      var b', last := b[..|b| - 1], b[|b| - 1];
      var tail := if last in keep then [last] else [];
      FilterAppend(a, b', keep);
      assert (a + b)[..|a + b| - 1] == a + b' && (a + b)[|a + b| - 1] == last;
      assert Filter(a + b, keep) == Filter(a + b', keep) + tail;
      assert Filter(b, keep) == Filter(b', keep) + tail;
      assert Filter(a, keep) + (Filter(b', keep) + tail) == Filter(a, keep) + Filter(b', keep) + tail;
    }
  }

  lemma {:induction false} FilterKeepsAll<T(!new)>(s: seq<T>, keep: set<T>)
    requires forall x :: x in s ==> x in keep
    ensures Filter(s, keep) == s
    decreases |s|
  {
    if s != [] {
      FilterKeepsAll(s[..|s| - 1], keep);
      assert s[..|s| - 1] + [s[|s| - 1]] == s;
    }
  }

  lemma {:induction false} RemoveAfterPrefix<T>(a: seq<T>, x: T, b: seq<T>)
    requires x !in a
    ensures RemoveValue(a + [x] + b, x) == a + b
    decreases |a|
  {
    if a == [] {
      assert a + [x] + b == [x] + b;
    } else {
      RemoveAfterPrefix(a[1..], x, b);
      assert (a + [x] + b)[1..] == a[1..] + [x] + b;
      assert a + b == [a[0]] + (a[1..] + b);
    }
  }
}
