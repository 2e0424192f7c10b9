/** Sequence facts shared by the tracking lists and the polyfill map. */
module Seqs {

  /** Positions `i` and `j` of `s` hold different elements. */
  ghost predicate Differ<T>(s: seq<T>, i: int, j: int)
    requires 0 <= i < |s| && 0 <= j < |s|
  {
    s[i] != s[j]
  }

  /** No element occurs twice. */
  ghost predicate Distinct<T>(s: seq<T>) {
    forall i, j :: 0 <= i < j < |s| ==> Differ(s, i, j)
  }

  /** Dropping the last element keeps a sequence duplicate-free, and that element occurs nowhere before. */
  lemma DistinctInit<T>(s: seq<T>)
    requires Distinct(s) && s != []
    ensures Distinct(s[..|s| - 1]) && s[|s| - 1] !in s[..|s| - 1]
  {
    var init := s[..|s| - 1];
    forall i, j | 0 <= i < j < |init|
      ensures Differ(init, i, j)
    {
      assert Differ(s, i, j);
    }
    forall i | 0 <= i < |init|
      ensures init[i] != s[|s| - 1]
    {
      assert Differ(s, i, |s| - 1);
    }
  }

  /** Appending an element that does not occur yet keeps a sequence duplicate-free. */
  lemma DistinctSnoc<T>(s: seq<T>, x: T)
    requires Distinct(s) && x !in s
    ensures Distinct(s + [x])
  {
    var t := s + [x];
    forall i, j | 0 <= i < j < |t|
      ensures Differ(t, i, j)
    {
      if j < |s| {
        assert Differ(s, i, j);
      } else {
        assert t[i] == s[i];
      }
    }
  }

  /** Two duplicate-free sequences with no common element concatenate to a duplicate-free one. */
  lemma DistinctConcat<T>(a: seq<T>, b: seq<T>)
    requires Distinct(a) && Distinct(b)
    requires forall x :: x in a ==> x !in b
    ensures Distinct(a + b)
  {
    var t := a + b;
    forall i, j | 0 <= i < j < |t|
      ensures Differ(t, i, j)
    {
      if j < |a| {
        assert Differ(a, i, j);
      } else if i >= |a| {
        assert Differ(b, i - |a|, j - |a|);
      } else {
        assert t[i] in a && t[j] in b;
      }
    }
  }

  /** In a duplicate-free sequence, the element at `i` occurs at no other position. */
  lemma DistinctOthers<T>(s: seq<T>, i: int)
    requires Distinct(s) && 0 <= i < |s|
    ensures forall j :: 0 <= j < |s| && j != i ==> s[j] != s[i]
  {
    forall j | 0 <= j < |s| && j != i
      ensures s[j] != s[i]
    {
      if j < i {
        assert Differ(s, j, i);
      } else {
        assert Differ(s, i, j);
      }
    }
  }

  /** Concatenation regroups freely. */
  lemma AppendAssoc<T>(a: seq<T>, b: seq<T>, c: seq<T>)
    ensures a + b + c == a + (b + c)
  {
  }

  /** `s` with the window `s[i..j]` cut out. */
  function Splice<T>(s: seq<T>, i: int, j: int): seq<T>
    requires 0 <= i <= j <= |s|
  {
    s[..i] + s[j..]
  }

  /** Cutting a window out of `s` commutes with appending `t` after it. */
  lemma SpliceAppend<T>(s: seq<T>, t: seq<T>, i: int, j: int)
    requires 0 <= i <= j <= |s|
    ensures Splice(s + t, i, j) == Splice(s, i, j) + t
  {
    assert (s + t)[..i] == s[..i];
    assert (s + t)[j..] == s[j..] + t;
  }
}
