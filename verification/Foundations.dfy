/** Shared vocabulary: optional values, sums over maps, sorting, filtering and paging. */
module Options {
  datatype Option<+T> = None | Some(value: T)
}

/** The sum of the numbers a finite map holds, and how updates change it. */
module MapSums {
  ghost function Total<K>(m: map<K, nat>): nat
  {
    if m == map[] then 0 else
      var k :| k in m;
      m[k] + Total(m - {k})
  }

  lemma {:induction false} TotalRemove<K>(m: map<K, nat>, k: K)
    requires k in m
    ensures Total(m) == m[k] + Total(m - {k})
    decreases |m|
  {
    var c :| c in m && Total(m) == m[c] + Total(m - {c});
    if c != k {
      TotalRemove(m - {c}, k);
      TotalRemove(m - {k}, c);
      assert m - {c} - {k} == m - {k} - {c};
    }
  }

  lemma TotalUpdate<K>(m: map<K, nat>, k: K, v: nat)
    ensures Total(m[k := v]) == v + Total(m) - (if k in m then m[k] else 0)
  {
    TotalRemove(m[k := v], k);
    if k in m {
      TotalRemove(m, k);
      assert m[k := v] - {k} == m - {k};
    } else {
      assert m[k := v] - {k} == m;
    }
  }

  lemma ScaleStep(floor: nat, n: nat)
    ensures floor * (n + 1) == floor + floor * n
  {
  }

  lemma {:induction false} TotalAtLeast<K>(m: map<K, nat>, floor: nat)
    requires forall k :: k in m ==> floor <= m[k]
    ensures floor * |m| <= Total(m)
    decreases |m|
  {
    if m != map[] {
      var k :| k in m;
      var rest := m - {k};
      assert |m| == |rest| + 1;
      ScaleStep(floor, |rest|);
      hide Total;
      TotalRemove(m, k);
      TotalAtLeast(rest, floor);
    }
  }
}

/** Python's `sorted`: a stable sort by a total preorder, and a strict order's uniqueness. */
module Sorting {
  ghost predicate TotalPreorder<T(!new)>(le: (T, T) -> bool)
  {
    && (forall a, b :: le(a, b) || le(b, a))
    && (forall a, b, c :: le(a, b) && le(b, c) ==> le(a, c))
  }

  ghost predicate SortedBy<T>(le: (T, T) -> bool, s: seq<T>)
  {
    forall i, j :: 0 <= i < j < |s| ==> le(s[i], s[j])
  }

  function Insert<T(!new)>(le: (T, T) -> bool, x: T, s: seq<T>): seq<T>
  {
    if s == [] then [x]
    else if le(x, s[0]) then [x] + s
    else [s[0]] + Insert(le, x, s[1..])
  }

  function StableSort<T(!new)>(le: (T, T) -> bool, s: seq<T>): seq<T>
  {
    if s == [] then [] else Insert(le, s[0], StableSort(le, s[1..]))
  }

  lemma {:induction false} InsertAdds<T(!new)>(le: (T, T) -> bool, x: T, s: seq<T>)
    ensures multiset(Insert(le, x, s)) == multiset(s) + multiset{x}
  {
    if s != [] {
      assert s == [s[0]] + s[1..];
      if !le(x, s[0]) {
        InsertAdds(le, x, s[1..]);
      }
    }
  }

  lemma SortedCons<T>(le: (T, T) -> bool, x: T, s: seq<T>)
    requires SortedBy(le, s)
    requires forall i :: 0 <= i < |s| ==> le(x, s[i])
    ensures SortedBy(le, [x] + s)
  {
  }

  lemma {:induction false} InsertSorts<T(!new)>(le: (T, T) -> bool, x: T, s: seq<T>)
    requires TotalPreorder(le) && SortedBy(le, s)
    ensures SortedBy(le, Insert(le, x, s))
  {
    if s != [] {
      if le(x, s[0]) {
        assert forall i :: 0 < i < |s| ==> le(s[0], s[i]) && le(x, s[i]);
        SortedCons(le, x, s);
      } else {
        InsertSorts(le, x, s[1..]);
        InsertAdds(le, x, s[1..]);
        var rest := Insert(le, x, s[1..]);
        forall i | 0 <= i < |rest| ensures le(s[0], rest[i]) {
          assert rest[i] in multiset(rest);
          assert rest[i] == x || rest[i] in s[1..];
        }
        SortedCons(le, s[0], rest);
      }
    }
  }

  /** Sorting loses nothing, invents nothing and leaves the elements in order. */
  lemma {:induction false} SortIsSortedPermutation<T(!new)>(le: (T, T) -> bool, s: seq<T>)
    requires TotalPreorder(le)
    ensures SortedBy(le, StableSort(le, s))
    ensures multiset(StableSort(le, s)) == multiset(s)
  {
    if s != [] {
      assert s == [s[0]] + s[1..];
      SortIsSortedPermutation(le, s[1..]);
      InsertAdds(le, s[0], StableSort(le, s[1..]));
      InsertSorts(le, s[0], StableSort(le, s[1..]));
    }
  }

  ghost predicate AntisymmetricOn<T>(le: (T, T) -> bool, s: seq<T>)
  {
    forall i, j :: 0 <= i < |s| && 0 <= j < |s| && le(s[i], s[j]) && le(s[j], s[i]) ==> s[i] == s[j]
  }

  lemma SortedHeadsAgree<T(!new)>(le: (T, T) -> bool, s: seq<T>, t: seq<T>)
    requires SortedBy(le, s) && SortedBy(le, t) && AntisymmetricOn(le, s)
    requires multiset(s) == multiset(t) && s != [] && t != []
    ensures s[0] == t[0]
  {
    assert s[0] in multiset(t) && t[0] in multiset(s);
    var i :| 0 <= i < |t| && t[i] == s[0];
    var j :| 0 <= j < |s| && s[j] == t[0];
    if i != 0 && j != 0 {
      assert le(t[0], t[i]) && le(s[0], s[j]);
    }
  }

  lemma TailsAgree<T>(s: seq<T>, t: seq<T>)
    requires multiset(s) == multiset(t) && s != [] && t != [] && s[0] == t[0]
    ensures multiset(s[1..]) == multiset(t[1..])
  {
    assert s == [s[0]] + s[1..] && t == [t[0]] + t[1..];
    assert multiset(s[1..]) == multiset(s) - multiset{s[0]};
    assert multiset(t[1..]) == multiset(t) - multiset{t[0]};
  }

  lemma TailStaysOrdered<T>(le: (T, T) -> bool, s: seq<T>)
    requires s != []
    ensures SortedBy(le, s) ==> SortedBy(le, s[1..])
    ensures AntisymmetricOn(le, s) ==> AntisymmetricOn(le, s[1..])
  {
  }

  /** When the order is antisymmetric on the elements, only one sorted arrangement exists. */
  lemma {:induction false} SortedUnique<T(!new)>(le: (T, T) -> bool, s: seq<T>, t: seq<T>)
    requires SortedBy(le, s) && SortedBy(le, t) && AntisymmetricOn(le, s)
    requires multiset(s) == multiset(t)
    ensures s == t
  {
    hide SortedBy, AntisymmetricOn;
    assert |s| == |multiset(s)| == |multiset(t)| == |t|;
    if s != [] {
      SortedHeadsAgree(le, s, t);
      TailsAgree(s, t);
      TailStaysOrdered(le, s);
      TailStaysOrdered(le, t);
      SortedUnique(le, s[1..], t[1..]);
      assert s == [s[0]] + s[1..] && t == [t[0]] + t[1..];
    }
  }

  lemma {:induction false} SameElementsDistinct<T>(s: seq<T>, t: seq<T>)
    requires NoDuplicates(s) && NoDuplicates(t)
    requires forall x :: x in s <==> x in t
    ensures multiset(s) == multiset(t)
  {
    NoDuplicatesByCount(s);
    NoDuplicatesByCount(t);
    forall x ensures multiset(s)[x] == multiset(t)[x] {
      assert x in multiset(s) <==> x in s;
      assert x in multiset(t) <==> x in t;
    }
  }

  lemma SortSize<T(!new)>(le: (T, T) -> bool, s: seq<T>)
    requires TotalPreorder(le)
    ensures |StableSort(le, s)| == |s|
    ensures forall x :: x in StableSort(le, s) <==> x in s
  {
    SortIsSortedPermutation(le, s);
    assert |multiset(StableSort(le, s))| == |StableSort(le, s)|;
    forall x ensures x in StableSort(le, s) <==> x in s {
      assert x in StableSort(le, s) <==> x in multiset(StableSort(le, s));
      assert x in s <==> x in multiset(s);
    }
  }

  ghost predicate NoDuplicates<T>(s: seq<T>)
  {
    forall i, j :: 0 <= i < j < |s| ==> s[i] != s[j]
  }

  lemma {:induction false} NoDuplicatesByCount<T>(s: seq<T>)
    ensures NoDuplicates(s) <==> forall x :: x in s ==> multiset(s)[x] == 1
  {
    if s != [] {
      var rest := s[1..];
      assert s == [s[0]] + rest;
      NoDuplicatesByCount(rest);
      if NoDuplicates(s) {
        assert NoDuplicates(rest);
        assert s[0] !in rest;
      } else if NoDuplicates(rest) {
        var j :| 0 < j < |s| && s[0] == s[j];
        assert s[j] == rest[j - 1];
        assert s[0] in multiset(rest) && multiset(s)[s[0]] != 1;
      } else {
        var x :| x in rest && multiset(rest)[x] != 1;
        assert multiset(s)[x] >= multiset(rest)[x] > 1;
      }
    }
  }

  lemma PermutationKeepsDistinct<T>(s: seq<T>, t: seq<T>)
    requires multiset(s) == multiset(t) && NoDuplicates(s)
    ensures NoDuplicates(t)
  {
    NoDuplicatesByCount(s);
    NoDuplicatesByCount(t);
    forall x | x in t ensures multiset(t)[x] == 1 {
      assert x in multiset(s);
    }
  }

  /** Python's string order: code point by code point, a proper prefix first. */
  predicate StringLeq(a: string, b: string)
  {
    a == [] || (b != [] && (a[0] < b[0] || (a[0] == b[0] && StringLeq(a[1..], b[1..]))))
  }

  /** The order in one sentence: equal up to some point, then smaller or at an end. */
  lemma {:induction false} StringLeqMeans(a: string, b: string)
    ensures StringLeq(a, b)
       <==> a <= b || exists k :: 0 <= k < |a| && k < |b| && a[..k] == b[..k] && a[k] < b[k]
  {
    if a != [] && b != [] {
      var s, t := a[1..], b[1..];
      StringLeqMeans(s, t);
      assert a == [a[0]] + s && b == [b[0]] + t;
      if a[0] == b[0] {
        assert a <= b <==> s <= t;
        if k :| 0 <= k < |s| && k < |t| && s[..k] == t[..k] && s[k] < t[k] {
          assert a[..k + 1] == [a[0]] + s[..k] && b[..k + 1] == [b[0]] + t[..k];
          assert a[k + 1] < b[k + 1];
        }
        if k :| 0 <= k < |a| && k < |b| && a[..k] == b[..k] && a[k] < b[k] {
          assert k != 0;
          assert s[..k - 1] == a[..k][1..] && t[..k - 1] == b[..k][1..];
          assert s[k - 1] < t[k - 1];
        }
      } else {
        assert a[..0] == b[..0];
        forall k | 0 < k < |a| && k < |b| ensures a[..k] != b[..k] {
          assert a[..k][0] == a[0] && b[..k][0] == b[0];
        }
      }
    }
  }

  lemma {:induction false} StringLeqTotal(a: string, b: string)
    ensures StringLeq(a, b) || StringLeq(b, a)
    ensures StringLeq(a, b) && StringLeq(b, a) ==> a == b
  {
    if a != [] && b != [] {
      StringLeqTotal(a[1..], b[1..]);
      assert a == [a[0]] + a[1..] && b == [b[0]] + b[1..];
    }
  }

  lemma {:induction false} StringLeqTransitive(a: string, b: string, c: string)
    requires StringLeq(a, b) && StringLeq(b, c)
    ensures StringLeq(a, c)
  {
    if a != [] && a[0] == b[0] == c[0] {
      StringLeqTransitive(a[1..], b[1..], c[1..]);
    }
  }

  lemma StringLeqIsPreorder()
    ensures TotalPreorder(StringLeq)
  {
    forall a, b ensures StringLeq(a, b) || StringLeq(b, a) { StringLeqTotal(a, b); }
    forall a, b, c | StringLeq(a, b) && StringLeq(b, c) ensures StringLeq(a, c) {
      StringLeqTransitive(a, b, c);
    }
  }

  /** The keys of a set, in Python's `sorted` order. */
  method SortedKeys(keys: set<string>) returns (s: seq<string>)
    ensures SortedBy(StringLeq, s) && NoDuplicates(s)
    ensures forall k :: k in s <==> k in keys
  {
    var listed: seq<string> := [];
    var remaining := keys;
    while remaining != {}
      invariant remaining <= keys
      invariant NoDuplicates(listed)
      invariant forall k :: k in listed <==> k in keys - remaining
    {
      var key :| key in remaining;
      assert key !in listed;
      listed := listed + [key];
      remaining := remaining - {key};
    }
    StringLeqIsPreorder();
    s := StableSort(StringLeq, listed);
    SortIsSortedPermutation(StringLeq, listed);
    PermutationKeepsDistinct(listed, s);
    SortSize(StringLeq, listed);
  }
}

/** Filtering and counting a sequence from its end, so that a loop can extend it. */
module Filtering {
  function Filter<T>(keep: T -> bool, s: seq<T>): seq<T>
  {
    if s == [] then []
    else
      var init, last := s[..|s| - 1], s[|s| - 1];
      if keep(last) then Filter(keep, init) + [last] else Filter(keep, init)
  }

  function Count<T>(keep: T -> bool, s: seq<T>): nat
  {
    |Filter(keep, s)|
  }

  lemma FilterStep<T>(keep: T -> bool, s: seq<T>, x: T)
    ensures Filter(keep, s + [x]) == if keep(x) then Filter(keep, s) + [x] else Filter(keep, s)
  {
    assert (s + [x])[..|s|] == s;
  }

  lemma PrefixFilterStep<T>(keep: T -> bool, s: seq<T>, n: nat)
    requires n < |s|
    ensures Filter(keep, s[..n + 1])
            == if keep(s[n]) then Filter(keep, s[..n]) + [s[n]] else Filter(keep, s[..n])
  {
    assert s[..n + 1] == s[..n] + [s[n]];
    FilterStep(keep, s[..n], s[n]);
  }

  lemma {:induction false} FilterShortens<T>(keep: T -> bool, s: seq<T>)
    ensures |Filter(keep, s)| <= |s|
  {
    if s != [] {
      FilterShortens(keep, s[..|s| - 1]);
    }
  }

  /** Where the first kept element stands. */
  lemma {:induction false} FirstKept<T>(keep: T -> bool, s: seq<T>) returns (i: nat)
    requires Filter(keep, s) != []
    ensures i < |s| && keep(s[i]) && Filter(keep, s)[0] == s[i]
    ensures forall k :: 0 <= k < i ==> !keep(s[k])
  {
    var init := s[..|s| - 1];
    if Filter(keep, init) == [] {
      i := |init|;
      NoneKept(keep, init);
    } else {
      i := FirstKept(keep, init);
    }
  }

  lemma {:induction false} NoneKept<T>(keep: T -> bool, s: seq<T>)
    ensures Filter(keep, s) == [] <==> forall k :: 0 <= k < |s| ==> !keep(s[k])
  {
    if s != [] {
      NoneKept(keep, s[..|s| - 1]);
    }
  }

  lemma {:induction false} AllKept<T>(keep: T -> bool, s: seq<T>)
    requires forall k :: 0 <= k < |s| ==> keep(s[k])
    ensures Filter(keep, s) == s
  {
    if s != [] {
      var init := s[..|s| - 1];
      AllKept(keep, init);
      assert s == init + [s[|s| - 1]];
    }
  }

  /** Where the last kept element stands. */
  lemma {:induction false} LastKept<T>(keep: T -> bool, s: seq<T>) returns (i: nat)
    requires Filter(keep, s) != []
    ensures i < |s| && keep(s[i]) && Filter(keep, s)[|Filter(keep, s)| - 1] == s[i]
    ensures forall k :: i < k < |s| ==> !keep(s[k])
  {
    if keep(s[|s| - 1]) {
      i := |s| - 1;
    } else {
      i := LastKept(keep, s[..|s| - 1]);
    }
  }

  /** At most one element is kept exactly when no two positions are. */
  lemma {:induction false} OneKept<T>(keep: T -> bool, s: seq<T>)
    ensures |Filter(keep, s)| <= 1 <==> forall i, j :: 0 <= i < j < |s| ==> !(keep(s[i]) && keep(s[j]))
  {
    if s != [] {
      var n := |s| - 1;
      var init := s[..n];
      OneKept(keep, init);
      NoneKept(keep, init);
      assert forall i :: 0 <= i < n ==> init[i] == s[i];
    }
  }

  lemma CountStep<T>(keep: T -> bool, s: seq<T>, n: nat)
    requires n < |s|
    ensures Count(keep, s[..n + 1]) == Count(keep, s[..n]) + if keep(s[n]) then 1 else 0
  {
    PrefixFilterStep(keep, s, n);
  }

  lemma PrefixAfter<T>(before: seq<T>, s: seq<T>, t: seq<T>)
    requires s <= t
    ensures before + s <= before + t
  {
    assert t == s + t[|s|..];
    assert before + t == (before + s) + t[|s|..];
  }

  lemma {:induction false} FilterKeeps<T>(keep: T -> bool, s: seq<T>)
    ensures forall x :: x in Filter(keep, s) <==> x in s && keep(x)
  {
    if s != [] {
      FilterKeeps(keep, s[..|s| - 1]);
      assert s == s[..|s| - 1] + [s[|s| - 1]];
    }
  }

  lemma {:induction false} FilterConcat<T>(keep: T -> bool, s: seq<T>, t: seq<T>)
    ensures Filter(keep, s + t) == Filter(keep, s) + Filter(keep, t)
    decreases |t|
  {
    if t == [] {
      assert s + t == s;
    } else {
      var init, last := t[..|t| - 1], t[|t| - 1];
      assert s + t == (s + init) + [last] && t == init + [last];
      FilterConcat(keep, s, init);
      FilterStep(keep, s + init, last);
      FilterStep(keep, init, last);
    }
  }
}

/** Sums over a list, and the law that distinct keys share out a bag. */
module Shares {
  function SumBy<T>(f: T -> nat, s: seq<T>): nat
  {
    if s == [] then 0 else SumBy(f, s[..|s| - 1]) + f(s[|s| - 1])
  }

  lemma SumByStep<T>(f: T -> nat, s: seq<T>, x: T)
    ensures SumBy(f, s + [x]) == SumBy(f, s) + f(x)
  {
    assert (s + [x])[..|s|] == s;
  }

  ghost predicate DistinctBy<T, K>(key: T -> K, s: seq<T>)
  {
    forall i, j :: 0 <= i < j < |s| ==> key(s[i]) != key(s[j])
  }

  ghost predicate Covers<T, K>(key: T -> K, s: seq<T>, bag: multiset<K>)
  {
    forall k :: k in bag ==> exists i :: 0 <= i < |s| && key(s[i]) == k
  }

  /** Items with distinct keys that each carry their key's multiplicity never exceed the bag,
      and fill it exactly when every key of the bag has its item. */
  lemma {:induction false} DistinctKeysShareBag<T, K>(key: T -> K, f: T -> nat, s: seq<T>, bag: multiset<K>)
    requires DistinctBy(key, s)
    requires forall i :: 0 <= i < |s| ==> f(s[i]) == bag[key(s[i])]
    ensures SumBy(f, s) <= |bag|
    ensures Covers(key, s, bag) ==> SumBy(f, s) == |bag|
    decreases |s|
  {
    if s == [] {
      if bag != multiset{} {
        var k :| k in bag;
      }
    } else {
      var init, last := s[..|s| - 1], s[|s| - 1];
      var rest := bag[key(last) := 0];
      assert bag == rest[key(last) := bag[key(last)]];
      DistinctKeysShareBag(key, f, init, rest);
      if Covers(key, s, bag) {
        forall k | k in rest ensures exists i :: 0 <= i < |init| && key(init[i]) == k {
          var i :| 0 <= i < |s| && key(s[i]) == k;
          assert key(init[i]) == k;
        }
      }
    }
  }
}

/** A reference to one line of a persisted snapshot file. */
module SnapshotLines {
  datatype LineReference = LineReference(
    sourceKey: string, outputFile: string, lineNumber: nat, line: string, lineTruncated: bool)
}

/** How many pages of a given size a list needs. */
module Paging {
  function Min(a: nat, b: nat): nat { if a <= b then a else b }

  /** The first n items, or all of them. */
  function Take<T>(s: seq<T>, n: nat): seq<T>
  {
    if n < |s| then s[..n] else s
  }

  function CeilDiv(a: nat, b: nat): nat
    requires 0 < b
  {
    (a + b - 1) / b
  }

  lemma MulMonotone(a: nat, b: nat, c: nat)
    requires a <= b
    ensures a * c <= b * c
  {
  }

  lemma CeilDivBounds(total: nat, size: nat, n: nat)
    requires 0 < size
    ensures n * size < total <==> n < CeilDiv(total, size)
  {
    var q := CeilDiv(total, size);
    assert total <= q * size < total + size;
    if q <= n {
      MulMonotone(q, n, size);
    } else {
      MulMonotone(n + 1, q, size);
      assert (n + 1) * size == n * size + size;
    }
  }

  function PagesNeeded(total: nat, size: nat): nat
    requires 0 < size
  {
    if total == 0 then 1 else CeilDiv(total, size)
  }

  lemma PagesAgainstNeeded(total: nat, size: nat, k: nat)
    requires 0 < size && 0 < k
    requires k == 1 || (k - 1) * size < total
    ensures k <= PagesNeeded(total, size)
    ensures k * size < total <==> k != PagesNeeded(total, size)
  {
    CeilDivBounds(total, size, k);
    CeilDivBounds(total, size, k - 1);
  }
}
