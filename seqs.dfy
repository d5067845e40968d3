/**
 * List comprehensions (`[f(x) for x in s if p(x)]`) and `list.sort(key=...)`
 * over sequences.
 */
module Seqs {
  import opened Wrappers

  /** `[x for x in s if p(x)]` */
  function Filter<T>(s: seq<T>, p: T -> bool): (r: seq<T>)
    ensures |r| <= |s|
    ensures forall x :: x in r ==> x in s && p(x)
  {
    if s == [] then [] else Filter(s[..|s| - 1], p) + (if p(s[|s| - 1]) then [s[|s| - 1]] else [])
  }

  lemma FilterSnoc<T>(s: seq<T>, x: T, p: T -> bool)
    ensures Filter(s + [x], p) == Filter(s, p) + (if p(x) then [x] else [])
  {
    assert (s + [x])[..|s + [x]| - 1] == s;
  }

  lemma {:induction false} FilterComplete<T>(s: seq<T>, p: T -> bool)
    ensures forall x :: x in s && p(x) ==> x in Filter(s, p)
  {
    if s != [] {
      FilterComplete(s[..|s| - 1], p);
      assert s == s[..|s| - 1] + [s[|s| - 1]];
    }
  }

  /** Where the middle part of `a + b + c` lies. */
  lemma PlaceAfter<T>(a: seq<T>, b: seq<T>, c: seq<T>)
    ensures a + b + c == a + (b + c)
    ensures (a + b + c)[..|a|] == a && (a + b + c)[|a|..|a| + |b|] == b
    ensures forall i :: 0 <= i < |b| ==> (a + b + c)[|a| + i] == b[i]
  {
  }

  /** An index into the first part of a concatenation. */
  lemma PrefixIndex<T>(a: seq<T>, b: seq<T>, i: nat)
    requires i < |a|
    ensures (a + b)[i] == a[i]
  {
  }

  /** `[f(x) for x in s]` */
  function Map<T, U>(s: seq<T>, f: T -> U): (r: seq<U>)
    ensures |r| == |s|
    ensures forall i :: 0 <= i < |s| ==> r[i] == f(s[i])
  {
    seq(|s|, i requires 0 <= i < |s| => f(s[i]))
  }

  /** `Map` over one more element of a prefix. */
  lemma MapPrefixSnoc<T, U>(s: seq<T>, i: nat, f: T -> U)
    requires i < |s|
    ensures Map(s[..i + 1], f) == Map(s[..i], f) + [f(s[i])]
  {
    assert s[..i + 1] == s[..i] + [s[i]];
    MapSnoc(s[..i], s[i], f);
  }

  lemma MapAppend<T, U>(a: seq<T>, b: seq<T>, f: T -> U)
    ensures Map(a + b, f) == Map(a, f) + Map(b, f)
  {
  }

  /** The values of the `Some`s, in order. */
  function Somes<T>(s: seq<Option<T>>): (r: seq<T>)
    ensures |r| <= |s|
  {
    if s == [] then [] else Somes(s[..|s| - 1]) + (if s[|s| - 1].Some? then [s[|s| - 1].value] else [])
  }

  lemma SomesSnoc<T>(s: seq<Option<T>>, x: Option<T>)
    ensures Somes(s + [x]) == Somes(s) + (if x.Some? then [x.value] else [])
  {
    assert (s + [x])[..|s + [x]| - 1] == s;
  }

  lemma {:induction false} SomesAppend<T>(a: seq<Option<T>>, b: seq<Option<T>>)
    ensures Somes(a + b) == Somes(a) + Somes(b)
    decreases |b|
  {
    if b == [] {
      assert a + b == a;
    } else {
      var init := b[..|b| - 1];
      assert a + b == (a + init) + [b[|b| - 1]];
      assert b == init + [b[|b| - 1]];
      SomesAppend(a, init);
      SomesSnoc(a + init, b[|b| - 1]);
      SomesSnoc(init, b[|b| - 1]);
    }
  }

  lemma {:induction false} SomesMembers<T>(s: seq<Option<T>>)
    ensures forall v :: v in Somes(s) <==> Some(v) in s
  {
    if s != [] {
      var init := s[..|s| - 1];
      SomesMembers(init);
      assert s == init + [s[|s| - 1]];
    }
  }

  /** `[f(x, i) for i, x in enumerate(s)]` */
  function MapIndexed<T, U>(s: seq<T>, f: (T, nat) -> U): (r: seq<U>)
    ensures |r| == |s|
    ensures forall i :: 0 <= i < |s| ==> r[i] == f(s[i], i)
  {
    seq(|s|, i requires 0 <= i < |s| => f(s[i], i))
  }

  lemma MapIndexedPrefix<T, U>(s: seq<T>, f: (T, nat) -> U, k: nat)
    requires k <= |s|
    ensures MapIndexed(s[..k], f) == MapIndexed(s, f)[..k]
  {
  }

  lemma MapIndexedPair<T, U>(x: T, y: T, f: (T, nat) -> U)
    ensures MapIndexed([x, y], f) == [f(x, 0), f(y, 1)]
  {
  }

  lemma MapSnoc<T, U>(s: seq<T>, x: T, f: T -> U)
    ensures Map(s + [x], f) == Map(s, f) + [f(x)]
  {
  }

  /** `r` is `f` applied to the elements of `s` at the increasing positions `idx`. */
  ghost predicate Traced<T, U>(r: seq<U>, idx: seq<nat>, s: seq<T>, f: T -> U) {
    |idx| == |r| &&
    (forall k :: 0 <= k < |idx| ==> idx[k] < |s| && r[k] == f(s[idx[k]])) &&
    (forall a, b :: 0 <= a < b < |idx| ==> idx[a] < idx[b])
  }

  /** A trace of all but the last element is a trace of the whole sequence. */
  lemma TracedDrop<T, U>(r: seq<U>, idx: seq<nat>, s: seq<T>, f: T -> U)
    requires s != [] && Traced(r, idx, s[..|s| - 1], f)
    ensures Traced(r, idx, s, f)
  {
    forall k | 0 <= k < |idx|
      ensures s[..|s| - 1][idx[k]] == s[idx[k]]
    {
    }
  }

  /** A trace of all but the last element grows by that element. */
  lemma TracedKeep<T, U>(r: seq<U>, idx: seq<nat>, s: seq<T>, f: T -> U)
    requires s != [] && Traced(r, idx, s[..|s| - 1], f)
    ensures Traced(r + [f(s[|s| - 1])], idx + [|s| - 1], s, f)
  {
    var init := s[..|s| - 1];
    var r1 := r + [f(s[|s| - 1])];
    var idx1 := idx + [|s| - 1];
    forall k | 0 <= k < |idx1|
      ensures idx1[k] < |s| && r1[k] == f(s[idx1[k]])
    {
      if k < |idx| {
        assert idx1[k] == idx[k] && r1[k] == r[k];
        assert init[idx[k]] == s[idx[k]];
      } else {
        assert idx1[k] == |s| - 1;
      }
    }
    forall a, b | 0 <= a < b < |idx1|
      ensures idx1[a] < idx1[b]
    {
      if b < |idx| {
        assert idx1[a] == idx[a] && idx1[b] == idx[b];
      } else {
        assert idx1[a] == idx[a];
      }
    }
  }

  function MapResult<T, U>(s: seq<T>, f: T -> Result<U>): Result<seq<U>> {
    if s == [] then Success([])
    else
      var pre := MapResult(s[..|s| - 1], f);
      var last := f(s[|s| - 1]);
      if pre.Failure? then pre
      else if last.Failure? then Failure(last.error)
      else Success(pre.value + [last.value])
  }

  /** It succeeds when every element converts, and then holds the converted elements in order. */
  lemma {:induction false} MapResultSpec<T, U>(s: seq<T>, f: T -> Result<U>)
    ensures MapResult(s, f).Success? <==> forall i :: 0 <= i < |s| ==> f(s[i]).Success?
    ensures MapResult(s, f).Success? ==>
              |MapResult(s, f).value| == |s| &&
              forall i :: 0 <= i < |s| ==> MapResult(s, f).value[i] == f(s[i]).value
  {
    if s != [] {
      var n := |s| - 1;
      MapResultSpec(s[..n], f);
      assert forall i :: 0 <= i < n ==> s[..n][i] == s[i];
    }
  }

  /** One more converted element extends a successful prefix. */
  lemma MapResultPrefixSnoc<T, U>(s: seq<T>, f: T -> Result<U>, i: nat, done: seq<U>)
    requires i < |s| && MapResult(s[..i], f) == Success(done) && f(s[i]).Success?
    ensures MapResult(s[..i + 1], f) == Success(done + [f(s[i]).value])
  {
    assert s[..i + 1][..i] == s[..i];
  }

  /** The loop stops at the first element that fails, whatever follows it. */
  lemma {:induction false} MapResultStops<T, U>(s: seq<T>, f: T -> Result<U>, k: nat)
    requires k < |s| && MapResult(s[..k], f).Success? && f(s[k]).Failure?
    ensures MapResult(s, f) == Failure(f(s[k]).error)
  {
    var n := |s| - 1;
    if k < n {
      assert s[..n][..k] == s[..k];
      MapResultStops(s[..n], f, k);
    } else {
      assert s[..n] == s[..k];
    }
  }

  /** Ascending by `key` (equal keys allowed). */
  predicate SortedBy<T>(s: seq<T>, key: T -> real) {
    forall i, j :: 0 <= i < j < |s| ==> key(s[i]) <= key(s[j])
  }

  /** Stable insertion of `x` into a sorted list: after every element whose key is at most `key(x)`. */
  function Insert<T>(x: T, s: seq<T>, key: T -> real): (r: seq<T>)
    ensures |r| == |s| + 1
    decreases |s|
  {
    if s == [] then [x]
    else if key(x) < key(s[|s| - 1]) then Insert(x, s[..|s| - 1], key) + [s[|s| - 1]]
    else s + [x]
  }

  lemma {:induction false} InsertMultiset<T>(x: T, s: seq<T>, key: T -> real)
    ensures multiset(Insert(x, s, key)) == multiset(s) + multiset{x}
    decreases |s|
  {
    if s != [] {
      assert s == s[..|s| - 1] + [s[|s| - 1]];
      if key(x) < key(s[|s| - 1]) {
        InsertMultiset(x, s[..|s| - 1], key);
      }
    }
  }

  /** A bound on every key survives the insertion of an element within it. */
  lemma {:induction false} InsertBounded<T>(x: T, s: seq<T>, key: T -> real, b: real)
    requires forall k :: 0 <= k < |s| ==> key(s[k]) <= b
    requires key(x) <= b
    ensures forall k :: 0 <= k < |Insert(x, s, key)| ==> key(Insert(x, s, key)[k]) <= b
    decreases |s|
  {
    if s != [] && key(x) < key(s[|s| - 1]) {
      InsertBounded(x, s[..|s| - 1], key, b);
    }
  }

  lemma {:induction false} InsertSorted<T>(x: T, s: seq<T>, key: T -> real)
    requires SortedBy(s, key)
    ensures SortedBy(Insert(x, s, key), key)
    decreases |s|
  {
    if s != [] && key(x) < key(s[|s| - 1]) {
      var init := s[..|s| - 1];
      var last := s[|s| - 1];
      InsertSorted(x, init, key);
      InsertBounded(x, init, key, key(last));
    }
  }

  /** `sorted(s, key=key)`: Python's sort is stable, and so is this insertion sort. */
  function SortBy<T>(s: seq<T>, key: T -> real): (r: seq<T>)
    ensures |r| == |s|
  {
    if s == [] then [] else Insert(s[|s| - 1], SortBy(s[..|s| - 1], key), key)
  }

  /** Sorting permutes: the same elements, each as often. */
  lemma {:induction false} SortByMultiset<T>(s: seq<T>, key: T -> real)
    ensures multiset(SortBy(s, key)) == multiset(s)
  {
    if s != [] {
      assert s == s[..|s| - 1] + [s[|s| - 1]];
      SortByMultiset(s[..|s| - 1], key);
      InsertMultiset(s[|s| - 1], SortBy(s[..|s| - 1], key), key);
    }
  }

  lemma {:induction false} SortBySorted<T>(s: seq<T>, key: T -> real)
    ensures SortedBy(SortBy(s, key), key)
  {
    if s != [] {
      SortBySorted(s[..|s| - 1], key);
      InsertSorted(s[|s| - 1], SortBy(s[..|s| - 1], key), key);
    }
  }

  /** A sequence that is already in order is left as it is. */
  lemma {:induction false} SortBySortedId<T>(s: seq<T>, key: T -> real)
    requires SortedBy(s, key)
    ensures SortBy(s, key) == s
  {
    if s != [] {
      var init := s[..|s| - 1];
      assert SortedBy(init, key);
      SortBySortedId(init, key);
      assert s == init + [s[|s| - 1]];
    }
  }

  /** `Insert` from the right: the elements past `j` move one place up behind `x`. */
  lemma {:induction false} InsertSplit<T>(x: T, s: seq<T>, key: T -> real, j: nat)
    requires j < |s| && forall k :: j <= k < |s| ==> key(x) < key(s[k])
    ensures Insert(x, s, key) == Insert(x, s[..j], key) + s[j..]
    decreases |s|
  {
    var init := s[..|s| - 1];
    var last := s[|s| - 1];
    assert Insert(x, s, key) == Insert(x, init, key) + [last];
    if j < |s| - 1 {
      InsertSplit(x, init, key, j);
      assert init[..j] == s[..j];
      assert init[j..] + [last] == s[j..];
    } else {
      assert init == s[..j];
      assert s[j..] == [last];
    }
  }

  /** `list.sort(key=key)`: a stable insertion sort in place, with the same result as `SortBy`. */
  method SortInPlace<T>(a: array<T>, key: T -> real)
    modifies a
    ensures a[..] == SortBy(old(a[..]), key)
  {
    ghost var orig := a[..];
    var i := 0;
    while i < a.Length
      invariant 0 <= i <= a.Length
      invariant a[..i] == SortBy(orig[..i], key)
      invariant a[i..] == orig[i..]
    {
      assert orig[..i + 1][..i] == orig[..i];
      assert a[i] == orig[i];
      InsertLast(a, i, key);
      assert a[i + 1..] == orig[i + 1..];
      i := i + 1;
    }
    assert orig[..a.Length] == orig;
    assert a[..] == a[..a.Length];
  }

  /** One step of the insertion sort: `a[i]` moves down into the prefix `a[..i]`. */
  method InsertLast<T>(a: array<T>, i: nat, key: T -> real)
    requires i < a.Length
    modifies a
    ensures a[..i + 1] == Insert(old(a[i]), old(a[..i]), key)
    ensures a[i + 1..] == old(a[i + 1..])
  {
    ghost var sorted := a[..i];
    var x := a[i];
    var j := ShiftUp(a, i, x, key);
    a[j] := x;
    assert a[i + 1..] == old(a[i + 1..]);
    Shifted(a[..], sorted, x, j);
    assert a[..][..i + 1] == a[..i + 1];
    InsertAt(x, sorted, key, j);
  }

  /** Where `Insert` puts `x`: behind the elements up to `j`, whose keys are at most `key(x)`. */
  lemma {:induction false} InsertAt<T>(x: T, s: seq<T>, key: T -> real, j: nat)
    requires j <= |s|
    requires forall k :: j <= k < |s| ==> key(x) < key(s[k])
    requires j > 0 ==> key(s[j - 1]) <= key(x)
    ensures Insert(x, s, key) == s[..j] + [x] + s[j..]
  {
    var pre := s[..j];
    if j > 0 {
      assert pre[|pre| - 1] == s[j - 1];
    }
    assert Insert(x, pre, key) == pre + [x];
    if j < |s| {
      InsertSplit(x, s, key, j);
    } else {
      assert pre == s;
      assert s[j..] == [];
    }
  }

  /** The elements of `a[..i]` with a key above `key(x)` move one place up, leaving a hole at `j`. */
  method ShiftUp<T>(a: array<T>, i: nat, x: T, key: T -> real) returns (j: nat)
    requires i < a.Length
    modifies a
    ensures j <= i
    ensures forall k :: 0 <= k < j ==> a[k] == old(a[k])
    ensures forall k :: j < k <= i ==> a[k] == old(a[k - 1])
    ensures forall k :: i < k < a.Length ==> a[k] == old(a[k])
    ensures forall k :: j <= k < i ==> key(x) < key(old(a[k]))
    ensures j > 0 ==> key(old(a[j - 1])) <= key(x)
  {
    j := i;
    while j > 0 && key(x) < key(a[j - 1])
      invariant 0 <= j <= i
      invariant forall k :: 0 <= k < j ==> a[k] == old(a[k])
      invariant forall k :: j < k <= i ==> a[k] == old(a[k - 1])
      invariant forall k :: i < k < a.Length ==> a[k] == old(a[k])
      invariant forall k :: j <= k < i ==> key(x) < key(old(a[k]))
    {
      a[j] := a[j - 1];
      j := j - 1;
    }
  }

  /** A prefix that holds `s` with `x` put in at index `j`. */
  lemma Shifted<T>(b: seq<T>, s: seq<T>, x: T, j: nat)
    requires j <= |s| < |b|
    requires forall k :: 0 <= k < j ==> b[k] == s[k]
    requires b[j] == x
    requires forall k :: j < k <= |s| ==> b[k] == s[k - 1]
    ensures b[..|s| + 1] == s[..j] + [x] + s[j..]
  {
  }

  // ---------------------------------------------------------------------
  // `sorted(s)` under a comparison `lt` (Python's `<` on the elements)

  /** `lt` never holds both ways, as a strict order. */
  ghost predicate Asymmetric<T(!new)>(lt: (T, T) -> bool) {
    forall a, b :: lt(a, b) ==> !lt(b, a)
  }

  /** No element is below the one before it. */
  predicate AscendingWith<T>(s: seq<T>, lt: (T, T) -> bool) {
    forall i :: 0 < i < |s| ==> !lt(s[i], s[i - 1])
  }

  /** Stable insertion of `x` into an ascending list: behind every element it is not below. */
  function InsertWith<T>(x: T, s: seq<T>, lt: (T, T) -> bool): (r: seq<T>)
    ensures |r| == |s| + 1
    ensures r[|r| - 1] == x || (s != [] && r[|r| - 1] == s[|s| - 1])
    decreases |s|
  {
    if s == [] then [x]
    else if lt(x, s[|s| - 1]) then InsertWith(x, s[..|s| - 1], lt) + [s[|s| - 1]]
    else s + [x]
  }

  lemma {:induction false} InsertWithMultiset<T>(x: T, s: seq<T>, lt: (T, T) -> bool)
    ensures multiset(InsertWith(x, s, lt)) == multiset(s) + multiset{x}
    decreases |s|
  {
    if s != [] {
      assert s == s[..|s| - 1] + [s[|s| - 1]];
      if lt(x, s[|s| - 1]) {
        InsertWithMultiset(x, s[..|s| - 1], lt);
      }
    }
  }

  lemma {:induction false} InsertWithAscending<T(!new)>(x: T, s: seq<T>, lt: (T, T) -> bool)
    requires Asymmetric(lt) && AscendingWith(s, lt)
    ensures AscendingWith(InsertWith(x, s, lt), lt)
    decreases |s|
  {
    if s != [] && lt(x, s[|s| - 1]) {
      var init := s[..|s| - 1];
      var last := s[|s| - 1];
      assert AscendingWith(init, lt) by {
        forall i | 0 < i < |init|
          ensures !lt(init[i], init[i - 1])
        {
          assert init[i] == s[i] && init[i - 1] == s[i - 1];
        }
      }
      InsertWithAscending(x, init, lt);
      var r := InsertWith(x, init, lt);
      assert !lt(last, r[|r| - 1]) by {
        if r[|r| - 1] == x {
          assert lt(x, last);
        } else {
          assert r[|r| - 1] == s[|s| - 2];
        }
      }
    }
  }

  /** `sorted(s)`: Python's sort is stable, and so is this insertion sort. */
  function SortWith<T>(s: seq<T>, lt: (T, T) -> bool): (r: seq<T>)
    ensures |r| == |s|
  {
    if s == [] then [] else InsertWith(s[|s| - 1], SortWith(s[..|s| - 1], lt), lt)
  }

  lemma {:induction false} SortWithMultiset<T>(s: seq<T>, lt: (T, T) -> bool)
    ensures multiset(SortWith(s, lt)) == multiset(s)
  {
    if s != [] {
      assert s == s[..|s| - 1] + [s[|s| - 1]];
      SortWithMultiset(s[..|s| - 1], lt);
      InsertWithMultiset(s[|s| - 1], SortWith(s[..|s| - 1], lt), lt);
    }
  }

  lemma {:induction false} SortWithAscending<T(!new)>(s: seq<T>, lt: (T, T) -> bool)
    requires Asymmetric(lt)
    ensures AscendingWith(SortWith(s, lt), lt)
  {
    if s != [] {
      SortWithAscending(s[..|s| - 1], lt);
      InsertWithAscending(s[|s| - 1], SortWith(s[..|s| - 1], lt), lt);
    }
  }

  /** The blocks one after another, as `lines.extend(block)` for each block in turn. */
  function Flatten<T>(blocks: seq<seq<T>>): seq<T> {
    if blocks == [] then [] else Flatten(blocks[..|blocks| - 1]) + blocks[|blocks| - 1]
  }

  lemma FlattenSnoc<T>(blocks: seq<seq<T>>, i: nat)
    requires i < |blocks|
    ensures Flatten(blocks[..i + 1]) == Flatten(blocks[..i]) + blocks[i]
  {
    assert blocks[..i + 1][..i] == blocks[..i];
  }

  /** Block `i` sits, whole, right after the blocks before it. */
  lemma {:induction false} FlattenLayout<T>(blocks: seq<seq<T>>, i: nat)
    requires i < |blocks|
    ensures |Flatten(blocks[..i])| + |blocks[i]| <= |Flatten(blocks)|
    ensures Flatten(blocks)[|Flatten(blocks[..i])|..|Flatten(blocks[..i])| + |blocks[i]|] == blocks[i]
    decreases |blocks|
  {
    var n := |blocks| - 1;
    var pre := blocks[..n];
    if i == n {
      assert blocks[..i] == pre;
    } else {
      FlattenLayout(pre, i);
      assert pre[..i] == blocks[..i];
      var off := |Flatten(blocks[..i])|;
      assert Flatten(blocks)[off..off + |blocks[i]|] == Flatten(pre)[off..off + |blocks[i]|];
    }
  }
}
