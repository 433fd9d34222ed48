/** The array operations the front end applies to lists: `filter` with a
    predicate, `filter` on the index, and `map` replacing matching entries. */
module Seqs {

  /** `s.filter(keep)` */
  function Filter<T>(s: seq<T>, keep: T -> bool): (r: seq<T>)
    ensures |r| <= |s|
    ensures forall k :: 0 <= k < |r| ==> keep(r[k]) && r[k] in s
    decreases |s|
  {
    if s == [] then []
    else (if keep(s[0]) then [s[0]] else []) + Filter(s[1..], keep)
  }

  /** An element is in the result exactly when it is in `s` and kept. */
  lemma {:induction false} FilterMembership<T>(s: seq<T>, keep: T -> bool, x: T)
    ensures x in Filter(s, keep) <==> x in s && keep(x)
    decreases |s|
  {
    if s != [] {
      FilterMembership(s[1..], keep, x);
      assert s == [s[0]] + s[1..];
    }
  }

  /** Filtering keeps the order: it distributes over concatenation. */
  lemma {:induction false} FilterAppend<T>(a: seq<T>, b: seq<T>, keep: T -> bool)
    ensures Filter(a + b, keep) == Filter(a, keep) + Filter(b, keep)
    decreases |a|
  {
    if a != [] {
      assert (a + b)[1..] == a[1..] + b;
      FilterAppend(a[1..], b, keep);
    } else {
      assert a + b == b;
    }
  }

  /** Two kept elements come out in the order they had in `s`. */
  lemma {:induction false} FilterKeepsRelativeOrder<T>(s: seq<T>, keep: T -> bool, i: int, j: int)
    requires 0 <= i < j < |s| && keep(s[i]) && keep(s[j])
    ensures exists a, b :: 0 <= a < b < |Filter(s, keep)| && Filter(s, keep)[a] == s[i] && Filter(s, keep)[b] == s[j]
    decreases |s|
  {
    var r := Filter(s, keep);
    var head: seq<T> := if keep(s[0]) then [s[0]] else [];
    var tail := Filter(s[1..], keep);
    assert r == head + tail;
    assert s[j] == s[1..][j - 1];
    if i == 0 {
      FilterMembership(s[1..], keep, s[j]);
      var b :| 0 <= b < |tail| && tail[b] == s[j];
      assert head == [s[0]];
      assert r[0] == s[i] && r[b + 1] == tail[b];
      assert 0 < b + 1 < |r|;
    } else {
      assert s[i] == s[1..][i - 1];
      FilterKeepsRelativeOrder(s[1..], keep, i - 1, j - 1);
      var a, b :| 0 <= a < b < |tail| && tail[a] == s[i] && tail[b] == s[j];
      var x, y := a + |head|, b + |head|;
      assert r[x] == tail[a] && r[y] == tail[b];
      assert 0 <= x < y < |r| && r[x] == s[i] && r[y] == s[j];
    }
  }

  /** Kept values occur as often as in `s`; dropped ones not at all. */
  lemma {:induction false} FilterCount<T>(s: seq<T>, keep: T -> bool, x: T)
    ensures multiset(Filter(s, keep))[x] == if keep(x) then multiset(s)[x] else 0
    decreases |s|
  {
    if s != [] {
      FilterCount(s[1..], keep, x);
      assert s == [s[0]] + s[1..];
    }
  }

  /** A filter that drops nothing gives back the whole list. */
  lemma {:induction false} FilterKeepsAll<T>(s: seq<T>, keep: T -> bool)
    requires forall k :: 0 <= k < |s| ==> keep(s[k])
    ensures Filter(s, keep) == s
    decreases |s|
  {
    if s != [] {
      FilterKeepsAll(s[1..], keep);
      assert s == [s[0]] + s[1..];
    }
  }

  /** `s.filter((_, i) => i !== index)` */
  function RemoveIndex<T>(s: seq<T>, index: int): (r: seq<T>)
    ensures 0 <= index < |s| ==> |r| == |s| - 1
    ensures !(0 <= index < |s|) ==> r == s
    decreases |s|
  {
    if s == [] then []
    else (if index == 0 then [] else [s[0]]) + RemoveIndex(s[1..], index - 1)
  }

  /** Removing index `i` drops exactly that element and keeps the rest in order. */
  lemma {:induction false} RemoveIndexSlices<T>(s: seq<T>, index: int)
    requires 0 <= index < |s|
    ensures RemoveIndex(s, index) == s[..index] + s[index + 1..]
    decreases |s|
  {
    if index > 0 {
      RemoveIndexSlices(s[1..], index - 1);
      assert s[..index] == [s[0]] + s[1..][..index - 1];
      assert s[index + 1..] == s[1..][index..];
    }
  }

  /** `s.map(p => hit(p) ? x : p)` */
  function ReplaceWhere<T>(s: seq<T>, hit: T -> bool, x: T): (r: seq<T>)
    ensures |r| == |s|
    decreases |s|
  {
    if s == [] then []
    else [if hit(s[0]) then x else s[0]] + ReplaceWhere(s[1..], hit, x)
  }

  /** Each entry is replaced by `x` exactly when it matches; the others stay put. */
  lemma {:induction false} ReplaceWhereAt<T>(s: seq<T>, hit: T -> bool, x: T, k: nat)
    requires k < |s|
    ensures ReplaceWhere(s, hit, x)[k] == if hit(s[k]) then x else s[k]
    decreases |s|
  {
    if k > 0 {
      ReplaceWhereAt(s[1..], hit, x, k - 1);
    }
  }
}
