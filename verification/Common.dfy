/** Notions that several parts of the model share. */
module Common {

  datatype Option<T> = None | Some(value: T)

  // No two elements are equal.
  ghost predicate Distinct<T>(s: seq<T>) {
    forall i, j :: 0 <= i < j < |s| ==> s[i] != s[j]
  }

  // Distinct elements of a finite set are at most as many as the set has, and then they are all of them.
  lemma {:induction false} DistinctCard<T>(p: seq<T>, s: set<T>)
    requires Distinct(p) && forall x :: x in p ==> x in s
    ensures |p| <= |s|
    ensures |p| == |s| ==> forall x :: x in s ==> x in p
  {
    if p != [] {
      var last, init := p[|p| - 1], p[..|p| - 1];
      assert forall x :: x in p <==> x in init || x == last;
      assert last !in init;
      DistinctCard(init, s - {last});
    }
  }

  // t stands in s at position i.
  ghost predicate Stands<T>(s: seq<T>, i: nat, t: seq<T>) {
    i + |t| <= |s| && forall k :: 0 <= k < |t| ==> s[i + k] == t[k]
  }

  lemma StandsParts<T>(s: seq<T>, i: nat, a: seq<T>, b: seq<T>)
    requires Stands(s, i, a + b)
    ensures Stands(s, i, a) && Stands(s, i + |a|, b)
  {
    forall k | 0 <= k < |a| ensures s[i + k] == a[k] {
      assert (a + b)[k] == a[k];
    }
    forall k | 0 <= k < |b| ensures s[i + |a| + k] == b[k] {
      assert (a + b)[|a| + k] == b[k];
    }
  }

  lemma OneStands<T>(s: seq<T>, i: nat, t: T)
    requires Stands(s, i, [t])
    ensures i < |s| && s[i] == t
  {
    assert s[i + 0] == [t][0];
  }
}
