/** Ordering and collection helpers: Python's string order, a stable
    insertion sort with a caller-supplied order (`sorted(..., key=...)`,
    `order_by`), first-occurrence de-duplication (`list(dict.fromkeys(xs))`)
    and order-preserving filtering (`[x for x in xs if p(x)]`,
    `Array.prototype.filter`). */
module Ordering {
  import opened Wrappers

  // ----- string order -----

  /** Python's `a <= b` on strings: lexicographic by code point. */
  predicate LexLe(a: string, b: string)
    decreases |a|
  {
    |a| == 0 || (|b| > 0 && (a[0] < b[0] || (a[0] == b[0] && LexLe(a[1..], b[1..]))))
  }

  lemma LexLeRefl(a: string)
    ensures LexLe(a, a)
  {
  }

  lemma LexLeTotal(a: string, b: string)
    ensures LexLe(a, b) || LexLe(b, a)
  {
  }

  lemma LexLeTrans(a: string, b: string, c: string)
    requires LexLe(a, b) && LexLe(b, c)
    ensures LexLe(a, c)
  {
  }

  lemma {:induction false} LexLeAntisym(a: string, b: string)
    requires LexLe(a, b) && LexLe(b, a)
    ensures a == b
    decreases |a|
  {
    if |a| > 0 {
      LexLeAntisym(a[1..], b[1..]);
      assert a == [a[0]] + a[1..];
      assert b == [b[0]] + b[1..];
    }
  }

  /** Python's `a < b` on strings. */
  predicate LexLt(a: string, b: string) {
    LexLe(a, b) && a != b
  }

  predicate StrictlySorted(s: seq<string>) {
    forall i, j :: 0 <= i < j < |s| ==> LexLt(s[i], s[j])
  }

  /** Insert `x` into a strictly ascending list, unless it is there. */
  function InsertUnique(x: string, s: seq<string>): (r: seq<string>)
    requires StrictlySorted(s)
    ensures StrictlySorted(r)
    ensures forall z :: z in r <==> z == x || z in s
  {
    if |s| == 0 then [x]
    else if x == s[0] then s
    else if LexLe(x, s[0]) then
      var r := [x] + s;
      assert forall j :: 0 < j < |r| ==> LexLt(x, r[j]) by {
        forall j | 0 < j < |r| ensures LexLt(x, r[j]) {
          assert r[j] == s[j - 1];
          if j - 1 > 0 {
            LexLeTrans(x, s[0], s[j - 1]);
            if x == s[j - 1] {
              LexLeAntisym(x, s[0]);
            }
          }
        }
      }
      assert s == r[1..];
      r
    else
      var t := InsertUnique(x, s[1..]);
      LexLeTotal(x, s[0]);
      var r := [s[0]] + t;
      assert forall j :: 0 < j < |r| ==> LexLt(s[0], r[j]) by {
        forall j | 0 < j < |r| ensures LexLt(s[0], r[j]) {
          assert r[j] in t;
          if r[j] != x {
            var k :| 0 <= k < |s[1..]| && s[1..][k] == r[j];
            assert s[k + 1] == r[j];
          }
        }
      }
      assert s == [s[0]] + s[1..];
      r
  }

  /** `sorted(set(s))`: the distinct elements of `s` in ascending order. */
  function SortedSet(s: seq<string>): (r: seq<string>)
    ensures StrictlySorted(r)
    ensures forall z :: z in r <==> z in s
  {
    if |s| == 0 then []
    else
      assert forall z :: z in s <==> z == s[0] || z in s[1..];
      InsertUnique(s[0], SortedSet(s[1..]))
  }

  lemma SameElementsEmpty<T>(a: seq<T>, b: seq<T>)
    requires forall z :: z in a <==> z in b
    ensures |a| == 0 <==> |b| == 0
  {
    if |a| > 0 {
      assert a[0] in b;
    }
    if |b| > 0 {
      assert b[0] in a;
    }
  }

  /** A strictly ascending list has no repeats and is the only strictly
      ascending list with its elements. */
  lemma {:induction false} StrictlySortedUnique(a: seq<string>, b: seq<string>)
    requires StrictlySorted(a) && StrictlySorted(b)
    requires forall z :: z in a <==> z in b
    ensures a == b
    decreases |a|
  {
    SameElementsEmpty(a, b);
    if |a| > 0 {
      if a[0] != b[0] {
        assert b[0] in a;
        var i :| 0 <= i < |a| && a[i] == b[0];
        assert a[0] in b;
        var j :| 0 <= j < |b| && b[j] == a[0];
        assert i > 0 && j > 0;
        assert LexLe(a[0], b[0]) && LexLe(b[0], a[0]);
        LexLeAntisym(a[0], b[0]);
      }
      assert forall z :: z in a[1..] <==> z in b[1..] by {
        forall z ensures z in a[1..] <==> z in b[1..] {
          if z in a[1..] {
            var i :| 1 <= i < |a| && a[i] == z;
            assert z != a[0];
            assert z in b;
          }
          if z in b[1..] {
            var j :| 1 <= j < |b| && b[j] == z;
            assert z != b[0];
            assert z in a;
          }
        }
      }
      StrictlySortedUnique(a[1..], b[1..]);
      assert a == [a[0]] + a[1..] && b == [b[0]] + b[1..];
    }
  }

  // ----- sorting -----

  ghost predicate TotalPreorder<T(!new)>(le: (T, T) -> bool) {
    && (forall a, b :: le(a, b) || le(b, a))
    && (forall a, b, c :: le(a, b) && le(b, c) ==> le(a, c))
  }

  predicate SortedBy<T>(s: seq<T>, le: (T, T) -> bool) {
    forall i, j :: 0 <= i < j < |s| ==> le(s[i], s[j])
  }

  /** Insert `x` before the first element it is `le` to, so that among
      equivalent elements the one inserted later comes first. */
  function InsertBy<T(!new)>(x: T, s: seq<T>, le: (T, T) -> bool): (r: seq<T>)
    requires TotalPreorder(le)
    requires SortedBy(s, le)
    ensures SortedBy(r, le)
    ensures multiset(r) == multiset(s) + multiset{x}
    ensures forall z :: z in r <==> z == x || z in s
  {
    if |s| == 0 then [x]
    else if le(x, s[0]) then
      var r := [x] + s;
      assert forall j :: 0 < j < |r| ==> le(x, r[j]) by {
        forall j | 0 < j < |r| ensures le(x, r[j]) {
          assert r[j] == s[j - 1];
          if j - 1 > 0 {
            assert le(s[0], s[j - 1]);
          }
        }
      }
      assert s == r[1..];
      r
    else
      var t := InsertBy(x, s[1..], le);
      assert le(s[0], x);
      var r := [s[0]] + t;
      assert forall j :: 0 < j < |r| ==> le(s[0], r[j]) by {
        forall j | 0 < j < |r| ensures le(s[0], r[j]) {
          assert r[j] in t;
          if r[j] != x {
            var k :| 0 <= k < |s[1..]| && s[1..][k] == r[j];
            assert s[k + 1] == r[j];
          }
        }
      }
      assert s == [s[0]] + s[1..];
      r
  }

  /** Stable insertion sort: `sorted(s, key=...)` with the order `le`. */
  function SortBy<T(!new)>(s: seq<T>, le: (T, T) -> bool): (r: seq<T>)
    requires TotalPreorder(le)
    ensures SortedBy(r, le)
    ensures multiset(r) == multiset(s)
    ensures |r| == |s|
  {
    if |s| == 0 then []
    else
      var r := InsertBy(s[0], SortBy(s[1..], le), le);
      assert s == [s[0]] + s[1..];
      assert |r| == |multiset(r)| == |multiset(s)|;
      r
  }

  lemma InSortBy<T(!new)>(s: seq<T>, le: (T, T) -> bool, x: T)
    requires TotalPreorder(le)
    ensures x in SortBy(s, le) <==> x in s
  {
    var r := SortBy(s, le);
    assert x in r <==> x in multiset(r);
    assert x in s <==> x in multiset(s);
  }

  /** `s[:n]`: the first `n` elements, or all of them. */
  function Take<T>(s: seq<T>, n: nat): (r: seq<T>)
    ensures |r| == if |s| <= n then |s| else n
    ensures r == s[..|r|]
  {
    if |s| <= n then s else s[..n]
  }

  /** A prefix holds no more copies of anything than the whole. */
  lemma TakeMultiset<T>(s: seq<T>, n: nat)
    ensures multiset(Take(s, n)) <= multiset(s)
  {
    var r := Take(s, n);
    assert s == r + s[|r|..];
  }

  // ----- distinctness and de-duplication -----

  predicate Distinct<T(==)>(s: seq<T>) {
    forall i, j :: 0 <= i < j < |s| ==> s[i] != s[j]
  }

  /** Index of the first occurrence of `x` in `s`. */
  function FirstIndex<T(==)>(s: seq<T>, x: T): (i: nat)
    requires x in s
    ensures i < |s| && s[i] == x && x !in s[..i]
  {
    if s[0] == x then 0 else 1 + FirstIndex(s[1..], x)
  }

  /** Index of the last occurrence of `x` in `s`, if any. */
  function LastIndex<T(==)>(s: seq<T>, x: T): (r: Option<nat>)
    ensures r.Some? ==> r.value < |s| && s[r.value] == x && x !in s[r.value + 1..]
    ensures r.None? <==> x !in s
  {
    if |s| == 0 then None
    else if s[|s| - 1] == x then Some(|s| - 1)
    else
      var r := LastIndex(s[..|s| - 1], x);
      assert s == s[..|s| - 1] + [s[|s| - 1]];
      if r.Some? then
        assert s[r.value + 1..] == s[..|s| - 1][r.value + 1..] + [s[|s| - 1]];
        r
      else r
  }

  lemma FirstIndexPrefix<T>(s: seq<T>, n: nat, x: T)
    requires n <= |s| && x in s[..n]
    ensures FirstIndex(s, x) == FirstIndex(s[..n], x)
  {
    var i := FirstIndex(s[..n], x);
    assert s[..n][..i] == s[..i];
  }

  /** `list(dict.fromkeys(s))`: each element once, at its first position. */
  function Dedup<T(==,!new)>(s: seq<T>): (r: seq<T>)
    ensures Distinct(r)
    ensures forall x :: x in r <==> x in s
    ensures forall i, j :: 0 <= i < j < |r| ==> FirstIndex(s, r[i]) < FirstIndex(s, r[j])
    decreases |s|
  {
    if |s| == 0 then []
    else
      var init := s[..|s| - 1];
      var d := Dedup(init);
      var x := s[|s| - 1];
      assert s == init + [x];
      forall y | y in init ensures FirstIndex(s, y) == FirstIndex(init, y) {
        FirstIndexPrefix(s, |s| - 1, y);
      }
      if x in d then d
      else
        var r := d + [x];
        assert x !in init;
        assert FirstIndex(s, x) == |s| - 1 by {
          assert x !in s[..|s| - 1];
        }
        r
  }

  // ----- filtering -----

  /** `r` embeds into `s` in order. */
  ghost predicate IsSubsequence<T>(r: seq<T>, s: seq<T>)
    decreases |s|
  {
    if |r| == 0 then true
    else if |s| == 0 then false
    else (r[0] == s[0] && IsSubsequence(r[1..], s[1..])) || IsSubsequence(r, s[1..])
  }

  /** Every sequence embeds into itself. */
  lemma {:induction false} SubsequenceRefl<T>(s: seq<T>)
    ensures IsSubsequence(s, s)
    decreases |s|
  {
    if |s| > 0 {
      SubsequenceRefl(s[1..]);
    }
  }

  /** `[x for x in s if keep(x)]`, `s.filter(keep)`. */
  function Filter<T(==,!new)>(s: seq<T>, keep: T -> bool): (r: seq<T>)
    ensures IsSubsequence(r, s)
    ensures forall x :: x in r <==> x in s && keep(x)
    ensures |r| <= |s|
  {
    if |s| == 0 then []
    else if keep(s[0]) then
      var r := [s[0]] + Filter(s[1..], keep);
      assert r[1..] == Filter(s[1..], keep);
      r
    else
      var r := Filter(s[1..], keep);
      assert s == [s[0]] + s[1..];
      r
  }

  /** Filtering by a test every element passes keeps the sequence. */
  lemma {:induction false} FilterKeepsAll<T(!new)>(s: seq<T>, keep: T -> bool)
    requires forall x :: x in s ==> keep(x)
    ensures Filter(s, keep) == s
  {
    if |s| > 0 {
      assert forall x :: x in s[1..] ==> x in s;
      FilterKeepsAll(s[1..], keep);
    }
  }

  lemma FilterCount<T(!new)>(s: seq<T>, keep: T -> bool, x: T)
    ensures multiset(Filter(s, keep))[x] == if keep(x) then multiset(s)[x] else 0
  {
    if |s| > 0 {
      FilterCount(s[1..], keep, x);
      assert s == [s[0]] + s[1..];
    }
  }

  /** `[f(x) for x in s]`, `s.map(f)`. */
  function MapSeq<A, B>(s: seq<A>, f: A -> B): (r: seq<B>)
    ensures |r| == |s| && forall i :: 0 <= i < |s| ==> r[i] == f(s[i])
  {
    seq(|s|, i requires 0 <= i < |s| => f(s[i]))
  }

  /** The kept elements mapped: empty exactly when nothing is kept, and
      holding exactly the images of the kept elements. */
  lemma MappedFilter<A(!new), B>(s: seq<A>, keep: A -> bool, f: A -> B)
    ensures var m := MapSeq(Filter(s, keep), f);
            ((exists i :: 0 <= i < |s| && keep(s[i])) <==> m != [])
            && forall u :: u in m <==> exists i :: 0 <= i < |s| && keep(s[i]) && f(s[i]) == u
  {
    var kept := Filter(s, keep);
    if exists i :: 0 <= i < |s| && keep(s[i]) {
      var i :| 0 <= i < |s| && keep(s[i]);
      assert s[i] in kept;
    }
    forall u | u in MapSeq(kept, f) ensures exists i :: 0 <= i < |s| && keep(s[i]) && f(s[i]) == u {
      MappedFrom(s, kept, keep, f, u);
    }
    forall u | exists i :: 0 <= i < |s| && keep(s[i]) && f(s[i]) == u ensures u in MapSeq(kept, f) {
      var i :| 0 <= i < |s| && keep(s[i]) && f(s[i]) == u;
      MappedTo(s, keep, f, i);
    }
  }

  lemma MappedFrom<A(!new), B>(s: seq<A>, kept: seq<A>, keep: A -> bool, f: A -> B, u: B)
    requires forall x :: x in kept ==> x in s && keep(x)
    requires u in MapSeq(kept, f)
    ensures exists i :: 0 <= i < |s| && keep(s[i]) && f(s[i]) == u
  {
    var m := MapSeq(kept, f);
    var k :| 0 <= k < |m| && m[k] == u;
    assert kept[k] in kept;
    var i :| 0 <= i < |s| && s[i] == kept[k];
  }

  lemma MappedTo<A(!new), B>(s: seq<A>, keep: A -> bool, f: A -> B, i: nat)
    requires i < |s| && keep(s[i])
    ensures f(s[i]) in MapSeq(Filter(s, keep), f)
  {
    var kept := Filter(s, keep);
    assert s[i] in kept;
    var k :| 0 <= k < |kept| && kept[k] == s[i];
    assert MapSeq(kept, f)[k] == f(s[i]);
  }
}
