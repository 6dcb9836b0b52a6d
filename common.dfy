/** Sequence helpers shared by every part of the model: optional values, duplicate-free
    sequences, first-seen de-duplication (the order in which a JavaScript `Set` or a plain
    object lists what was added to it) and order-preserving subsequences. */
module Common {

  datatype Option<T> = None | Some(value: T)

  /** No element occurs twice. */
  ghost predicate Distinct<T>(s: seq<T>) {
    forall i, j :: 0 <= i < j < |s| ==> s[i] != s[j]
  }

  /** The index of the first occurrence of `x` in `s`. */
  function FirstIndex<T(==)>(s: seq<T>, x: T): (i: nat)
    requires x in s
    ensures i < |s| && s[i] == x
    ensures forall k :: 0 <= k < i ==> s[k] != x
  {
    if s[0] == x then 0 else 1 + FirstIndex(s[1..], x)
  }

  /** The distinct elements of `s`, each where it first occurs: what a JavaScript `Set` (or the
      key list of an object) holds after adding the elements of `s` one by one. */
  function FirstSeen<T(==,!new)>(s: seq<T>): (r: seq<T>)
    ensures forall x :: x in r <==> x in s
    ensures Distinct(r)
  {
    if s == [] then []
    else
      var r' := FirstSeen(s[..|s| - 1]);
      assert forall x :: x in s <==> x in s[..|s| - 1] || x == s[|s| - 1];
      if s[|s| - 1] in r' then r' else r' + [s[|s| - 1]]
  }

  /** Adding one more element: it is appended exactly when it was not seen before. */
  lemma FirstSeenSnoc<T(!new)>(s: seq<T>, x: T)
    ensures FirstSeen(s + [x]) == if x in s then FirstSeen(s) else FirstSeen(s) + [x]
  {
    assert (s + [x])[..|s|] == s;
  }

  /** First-seen order: in `FirstSeen(s)` an element comes before another exactly when its first
      occurrence in `s` comes before the other's. */
  lemma {:induction false} FirstSeenOrder<T(!new)>(s: seq<T>, i: nat, j: nat)
    requires i < j < |FirstSeen(s)|
    ensures FirstIndex(s, FirstSeen(s)[i]) < FirstIndex(s, FirstSeen(s)[j])
  {
    var n := |s| - 1;
    var p := s[..n];
    FirstSeenSnoc(p, s[n]);
    assert s == p + [s[n]];
    var r := FirstSeen(s);
    if j < |FirstSeen(p)| {
      FirstSeenOrder(p, i, j);
      PrefixFirstIndex(p, s[n], r[i]);
      PrefixFirstIndex(p, s[n], r[j]);
    } else {
      // r[j] is s[n], not seen in p; r[i] was seen in p
      assert r[j] == s[n] && s[n] !in p;
      assert r[i] in p;
      PrefixFirstIndex(p, s[n], r[i]);
      assert FirstIndex(s, r[j]) == n;
    }
  }

  lemma PrefixFirstIndex<T>(p: seq<T>, y: T, x: T)
    requires x in p
    ensures x in p + [y] && FirstIndex(p + [y], x) == FirstIndex(p, x)
  {
    var s := p + [y];
    var k := FirstIndex(p, x);
    assert s[k] == x;
  }

  /** One more element of a sequence extends its prefix by that element. */
  lemma PrefixSnoc<T>(s: seq<T>, i: nat)
    requires i < |s|
    ensures s[..i + 1] == s[..i] + [s[i]]
  {
  }

  /** A non-empty sequence is its front followed by its last element. */
  lemma SplitLast<T>(s: seq<T>)
    requires s != []
    ensures s == s[..|s| - 1] + [s[|s| - 1]]
  {
  }

  /** `a` is `b` with some elements removed, the rest kept in order. */
  predicate IsSubsequence<T(==)>(a: seq<T>, b: seq<T>)
    decreases |b|
  {
    if a == [] then true
    else if b == [] then false
    else if a[|a| - 1] == b[|b| - 1] then IsSubsequence(a[..|a| - 1], b[..|b| - 1])
    else IsSubsequence(a, b[..|b| - 1])
  }

  lemma {:induction false} SubsequenceSnoc<T>(a: seq<T>, b: seq<T>, x: T)
    requires IsSubsequence(a, b)
    ensures IsSubsequence(a, b + [x]) && IsSubsequence(a + [x], b + [x])
  {
    assert (b + [x])[..|b|] == b;
    assert (a + [x])[..|a|] == a;
    if a != [] {
      SubsequenceExtend(a, b, x);
    }
  }

  lemma {:induction false} SubsequenceExtend<T>(a: seq<T>, b: seq<T>, x: T)
    requires IsSubsequence(a, b)
    ensures IsSubsequence(a, b + [x])
    decreases |b|, 1
  {
    assert (b + [x])[..|b|] == b;
    if a == [] {
    } else if a[|a| - 1] == x {
      // matched greedily at the new last element; the rest of `a` must still fit in `b`
      SubsequenceDropLast(a, b);
    } else {
    }
  }

  lemma {:induction false} SubsequenceDropLast<T>(a: seq<T>, b: seq<T>)
    requires a != [] && IsSubsequence(a, b)
    ensures IsSubsequence(a[..|a| - 1], b)
    decreases |b|, 0
  {
    var a' := a[..|a| - 1];
    var b' := b[..|b| - 1];
    if a[|a| - 1] == b[|b| - 1] {
      if a' != [] {
        SubsequenceExtend(a', b', b[|b| - 1]);
        assert b' + [b[|b| - 1]] == b;
      }
    } else {
      SubsequenceDropLast(a, b');
      if a' != [] {
        SubsequenceExtend(a', b', b[|b| - 1]);
        assert b' + [b[|b| - 1]] == b;
      }
    }
  }

  /** `s.filter(keep)`: the elements `keep` accepts, in their order. */
  function Filter<T(==,!new)>(s: seq<T>, keep: T -> bool): (r: seq<T>)
    ensures IsSubsequence(r, s)
    ensures forall x :: x in r <==> x in s && keep(x)
  {
    if s == [] then []
    else
      var n := |s| - 1;
      var r := Filter(s[..n], keep);
      assert s == s[..n] + [s[n]];
      SubsequenceSnoc(r, s[..n], s[n]);
      if keep(s[n]) then r + [s[n]] else r
  }

  /** The filter keeps every accepted element as often as it occurs, and no other. */
  lemma {:induction false} FilterCounts<T(!new)>(s: seq<T>, keep: T -> bool)
    ensures forall x :: multiset(Filter(s, keep))[x] == if keep(x) then multiset(s)[x] else 0
  {
    if s != [] {
      var n := |s| - 1;
      FilterCounts(s[..n], keep);
      assert s == s[..n] + [s[n]];
      FilterCountStep(Filter(s[..n], keep), s[..n], s[n], keep);
    }
  }

  /** Filtering one more element keeps the count of every element right. */
  lemma FilterCountStep<T>(r: seq<T>, s: seq<T>, x: T, keep: T -> bool)
    requires forall y :: multiset(r)[y] == if keep(y) then multiset(s)[y] else 0
    ensures forall y :: multiset(if keep(x) then r + [x] else r)[y]
                        == if keep(y) then multiset(s + [x])[y] else 0
  {
    assert multiset(s + [x]) == multiset(s) + multiset{x};
    assert multiset(r + [x]) == multiset(r) + multiset{x};
  }

  /** A filter that accepts every element keeps the whole sequence. */
  lemma {:induction false} FilterAll<T(!new)>(s: seq<T>, keep: T -> bool)
    requires forall i :: 0 <= i < |s| ==> keep(s[i])
    ensures Filter(s, keep) == s
  {
    if s != [] {
      var n := |s| - 1;
      FilterAll(s[..n], keep);
      assert s == s[..n] + [s[n]];
    }
  }

  /** A filter that accepts no element keeps nothing. */
  lemma {:induction false} FilterNone<T(!new)>(s: seq<T>, keep: T -> bool)
    requires forall i :: 0 <= i < |s| ==> !keep(s[i])
    ensures Filter(s, keep) == []
  {
    if s != [] {
      FilterNone(s[..|s| - 1], keep);
    }
  }

  /** The first element a filter keeps is the first element it accepts. */
  lemma {:induction false} FilterHead<T(!new)>(s: seq<T>, keep: T -> bool, k: nat)
    requires k < |s| && keep(s[k]) && forall i :: 0 <= i < k ==> !keep(s[i])
    ensures |Filter(s, keep)| > 0 && Filter(s, keep)[0] == s[k]
  {
    var n := |s| - 1;
    if k < n {
      FilterHead(s[..n], keep, k);
    } else {
      FilterNone(s[..n], keep);
    }
  }
}

