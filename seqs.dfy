/** Order-preserving selection from a sequence, the shape of a SQL `WHERE`. */
module Seqs {
  function Filter<T(!new)>(s: seq<T>, p: T -> bool): (r: seq<T>)
    ensures |r| <= |s|
    ensures forall x :: x in r <==> x in s && p(x)
  {
    if s == [] then [] else (if p(s[0]) then [s[0]] else []) + Filter(s[1..], p)
  }

  /** Selection keeps each wanted element as often as it occurred and drops the rest. */
  lemma {:induction false} FilterCount<T(!new)>(s: seq<T>, p: T -> bool, x: T)
    ensures multiset(Filter(s, p))[x] == if p(x) then multiset(s)[x] else 0
  {
    if s != [] {
      FilterCount(s[1..], p, x);
      assert s == [s[0]] + s[1..];
    }
  }

  /** A relation that holds between every earlier and later element still holds after selection. */
  lemma {:induction false} FilterPairwise<T(!new)>(s: seq<T>, p: T -> bool, rel: (T, T) -> bool)
    requires forall i, j :: 0 <= i < j < |s| ==> rel(s[i], s[j])
    ensures forall i, j :: 0 <= i < j < |Filter(s, p)| ==> rel(Filter(s, p)[i], Filter(s, p)[j])
  {
    if s != [] {
      FilterPairwise(s[1..], p, rel);
      var rest := Filter(s[1..], p);
      forall y | y in rest ensures rel(s[0], y) {
        var k :| 0 <= k < |s[1..]| && s[1..][k] == y;
        assert s[k + 1] == y;
      }
      var r := Filter(s, p);
      var head := if p(s[0]) then [s[0]] else [];
      assert r == head + rest;
      forall i, j | 0 <= i < j < |r| ensures rel(r[i], r[j]) {
        if i < |head| {
          assert r[i] == s[0] && r[j] == rest[j - |head|] && r[j] in rest;
        } else {
          assert r[i] == rest[i - |head|] && r[j] == rest[j - |head|];
          assert rel(rest[i - |head|], rest[j - |head|]);
        }
      }
    }
  }

  /** Two selections commute: chained `where`s mean the conjunction. */
  lemma {:induction false} FilterCommutes<T(!new)>(s: seq<T>, p: T -> bool, q: T -> bool)
    ensures Filter(Filter(s, p), q) == Filter(Filter(s, q), p)
  {
    if s != [] {
      FilterCommutes(s[1..], p, q);
      assert s == [s[0]] + s[1..];
      FilterAppend([s[0]], s[1..], p);
      FilterAppend([s[0]], s[1..], q);
      FilterAppend(Filter([s[0]], p), Filter(s[1..], p), q);
      FilterAppend(Filter([s[0]], q), Filter(s[1..], q), p);
    }
  }

  lemma {:induction false} FilterAppend<T(!new)>(s: seq<T>, t: seq<T>, p: T -> bool)
    ensures Filter(s + t, p) == Filter(s, p) + Filter(t, p)
  {
    if s != [] {
      FilterAppend(s[1..], t, p);
      assert (s + t)[1..] == s[1..] + t;
    } else {
      assert s + t == t;
    }
  }
}
