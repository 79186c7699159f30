/** Sequence operations that give the store operators their plain-data
    meaning: `deleteMany` and `find` are `Filter`, `countDocuments` is
    `Count`, `findOne` is `First`, `findOneAndDelete` is `RemoveFirst`,
    `$pull` is `Pull` and `$addToSet` is `AddToSet`. */
module Seqs {
  import opened Base

  function Not<T>(p: T -> bool): T -> bool {
    x => !p(x)
  }

  function NotEq<T(==)>(y: T): T -> bool {
    x => x != y
  }

  predicate NoDup<T(==)>(s: seq<T>) {
    forall i, j :: 0 <= i < j < |s| ==> s[i] != s[j]
  }

  /** The elements of `s` satisfying `keep`, in their order in `s`. */
  function Filter<T>(s: seq<T>, keep: T -> bool): (r: seq<T>)
    ensures |r| <= |s|
    ensures forall x :: x in r ==> x in s && keep(x)
    ensures forall x :: x in s && keep(x) ==> x in r
  {
    if |s| == 0 then []
    else if keep(s[0]) then [s[0]] + Filter(s[1..], keep)
    else Filter(s[1..], keep)
  }

  /** The number of elements of `s` satisfying `p`. */
  function Count<T>(s: seq<T>, p: T -> bool): (n: nat)
    ensures n <= |s|
    ensures n == 0 <==> forall x :: x in s ==> !p(x)
  {
    var f := Filter(s, p);
    assert |f| > 0 ==> f[0] in f;
    |f|
  }

  /** The first element of `s` satisfying `p`, if any. */
  function First<T>(s: seq<T>, p: T -> bool): (r: Option<T>)
    ensures r.Some? ==> r.value in s && p(r.value)
    ensures r.None? <==> forall x :: x in s ==> !p(x)
    ensures r.Some? ==> exists i :: 0 <= i < |s| && s[i] == r.value && forall j :: 0 <= j < i ==> !p(s[j])
  {
    if |s| == 0 then None
    else if p(s[0]) then Some(s[0])
    else
      var r := First(s[1..], p);
      assert r.Some? ==> exists i :: 0 < i < |s| && s[i] == r.value && forall j :: 0 <= j < i ==> !p(s[j]) by {
        if r.Some? {
          var i :| 0 <= i < |s[1..]| && s[1..][i] == r.value && forall j :: 0 <= j < i ==> !p(s[1..][j]);
          assert s[i + 1] == r.value;
          forall j | 0 <= j < i + 1 ensures !p(s[j]) {
            if j > 0 { assert s[j] == s[1..][j - 1]; }
          }
        }
      }
      r
  }

  /** `s` without its first element satisfying `p`; `s` itself when none does. */
  function RemoveFirst<T>(s: seq<T>, p: T -> bool): (r: seq<T>)
    ensures forall x :: x in r ==> x in s
    ensures Filter(r, Not(p)) == Filter(s, Not(p))
    ensures Count(s, p) > 0 ==> Count(r, p) == Count(s, p) - 1 && |r| == |s| - 1
    ensures Count(s, p) == 0 ==> r == s
  {
    if |s| == 0 then []
    else if p(s[0]) then
      assert Filter(s, Not(p)) == Filter(s[1..], Not(p));
      assert Filter(s, p) == [s[0]] + Filter(s[1..], p);
      s[1..]
    else
      var rest := RemoveFirst(s[1..], p);
      var r := [s[0]] + rest;
      assert r[0] == s[0] && r[1..] == rest;
      assert Filter(r, Not(p)) == [s[0]] + Filter(rest, Not(p));
      assert Filter(s, Not(p)) == [s[0]] + Filter(s[1..], Not(p));
      assert Filter(r, p) == Filter(rest, p);
      assert Filter(s, p) == Filter(s[1..], p);
      assert s == [s[0]] + s[1..];
      r
  }

  /** `f` applied to each element, in order. */
  function Map<T, U>(s: seq<T>, f: T -> U): (r: seq<U>)
    ensures |r| == |s|
    ensures forall i :: 0 <= i < |s| ==> r[i] == f(s[i])
  {
    seq(|s|, i requires 0 <= i < |s| => f(s[i]))
  }

  lemma MapConcat<T, U>(a: seq<T>, b: seq<T>, f: T -> U)
    ensures Map(a + b, f) == Map(a, f) + Map(b, f)
  {
    assert forall i :: 0 <= i < |a| ==> (a + b)[i] == a[i];
    assert forall i :: |a| <= i < |a| + |b| ==> (a + b)[i] == b[i - |a|];
  }

  /** An `updateMany`: `f` applied to the elements satisfying `p`, the
      others kept, positions unchanged. */
  function Update<T>(s: seq<T>, p: T -> bool, f: T -> T): (r: seq<T>)
    ensures |r| == |s|
    ensures forall i :: 0 <= i < |s| ==> r[i] == if p(s[i]) then f(s[i]) else s[i]
  {
    seq(|s|, i requires 0 <= i < |s| => if p(s[i]) then f(s[i]) else s[i])
  }

  /** Updating with a change that keeps the search predicate finds the
      updated version of the element found before. */
  lemma {:induction false} FirstOfUpdate<T>(s: seq<T>, p: T -> bool, f: T -> T, q: T -> bool)
    requires forall x :: q(f(x)) == q(x)
    ensures First(Update(s, p, f), q).Some? == First(s, q).Some?
    ensures First(s, q).Some? ==>
      First(Update(s, p, f), q).value == if p(First(s, q).value) then f(First(s, q).value) else First(s, q).value
  {
    if |s| > 0 {
      var u := Update(s, p, f);
      assert u[1..] == Update(s[1..], p, f);
      FirstOfUpdate(s[1..], p, f, q);
    }
  }

  /** Filtering after an update that keeps the filter's verdict is updating
      after the filter. */
  lemma {:induction false} FilterOfUpdate<T>(s: seq<T>, p: T -> bool, f: T -> T, q: T -> bool)
    requires forall x :: q(f(x)) == q(x)
    ensures Filter(Update(s, p, f), q) == Update(Filter(s, q), p, f)
  {
    if |s| > 0 {
      var u := Update(s, p, f);
      assert u == [u[0]] + Update(s[1..], p, f);
      assert q(u[0]) == q(s[0]);
      FilterOfUpdate(s[1..], p, f, q);
      if q(s[0]) {
        UpdateCons(s[0], Filter(s[1..], q), p, f);
      }
    }
  }

  lemma UpdateCons<T>(a: T, s: seq<T>, p: T -> bool, f: T -> T)
    ensures Update([a] + s, p, f) == [if p(a) then f(a) else a] + Update(s, p, f)
  {
    assert forall i :: 0 < i <= |s| ==> ([a] + s)[i] == s[i - 1];
  }

  /** Two updates on the same elements compose, as long as the first keeps
      the selection. */
  lemma UpdateCompose<T>(s: seq<T>, p: T -> bool, f: T -> T, g: T -> T)
    requires forall x :: p(x) ==> p(f(x))
    ensures forall i :: 0 <= i < |s| ==> Update(Update(s, p, f), p, g)[i] == if p(s[i]) then g(f(s[i])) else s[i]
  {
  }

  /** Repeating an update whose change is idempotent changes nothing. */
  lemma UpdateIdempotent<T>(s: seq<T>, p: T -> bool, f: T -> T)
    requires forall x :: p(x) ==> p(f(x)) && f(f(x)) == f(x)
    ensures Update(Update(s, p, f), p, f) == Update(s, p, f)
  {
    UpdateCompose(s, p, f, f);
  }

  /** An update followed by one that undoes it on the selected elements gives
      back the original. */
  lemma UpdateUndone<T>(s: seq<T>, p: T -> bool, f: T -> T, g: T -> T)
    requires forall x :: p(x) ==> p(f(x))
    requires forall x :: x in s && p(x) ==> g(f(x)) == x
    ensures Update(Update(s, p, f), p, g) == s
  {
    UpdateCompose(s, p, f, g);
    assert forall i :: 0 <= i < |s| ==> s[i] in s;
  }

  /** An update whose change undoes itself and keeps `p`, applied twice,
      changes nothing. */
  lemma UpdateTwice<T>(s: seq<T>, p: T -> bool, f: T -> T)
    requires forall x :: p(x) ==> p(f(x)) && f(f(x)) == x
    ensures Update(Update(s, p, f), p, f) == s
  {
  }

  /** `$addToSet`: append `x` unless it is already present. */
  function AddToSet<T(==)>(s: seq<T>, x: T): (r: seq<T>)
    ensures x in r && forall y :: y in s ==> y in r
    ensures forall y :: y in r ==> y in s || y == x
    ensures |s| <= |r| <= |s| + 1 && r[..|s|] == s
    ensures NoDup(s) ==> NoDup(r)
  {
    if x in s then s else s + [x]
  }

  /** `$pull`: remove every occurrence of `x`. */
  function Pull<T(==)>(s: seq<T>, x: T): (r: seq<T>)
    ensures x !in r
    ensures forall y :: y in r ==> y in s
    ensures forall y :: y in s && y != x ==> y in r
  {
    Filter(s, NotEq(x))
  }

  lemma {:induction false} FilterConcat<T>(a: seq<T>, b: seq<T>, keep: T -> bool)
    ensures Filter(a + b, keep) == Filter(a, keep) + Filter(b, keep)
  {
    if |a| == 0 {
      assert a + b == b;
    } else {
      assert (a + b)[0] == a[0];
      assert (a + b)[1..] == a[1..] + b;
      FilterConcat(a[1..], b, keep);
    }
  }

  /** Appending a kept element appends its image to the mapped filter. */
  lemma MapFilterSnoc<T, U>(s: seq<T>, x: T, keep: T -> bool, f: T -> U)
    requires keep(x)
    ensures Map(Filter(s + [x], keep), f) == Map(Filter(s, keep), f) + [f(x)]
  {
    FilterConcat(s, [x], keep);
    assert [x][1..] == [];
    MapConcat(Filter(s, keep), [x], f);
  }

  lemma {:induction false} FilterKeepsAll<T>(s: seq<T>, keep: T -> bool)
    requires forall x :: x in s ==> keep(x)
    ensures Filter(s, keep) == s
  {
    if |s| > 0 {
      assert s[0] in s;
      FilterKeepsAll(s[1..], keep);
      assert s == [s[0]] + s[1..];
    }
  }

  /** Filtering twice with the same predicate changes nothing the second time. */
  lemma FilterTwice<T>(s: seq<T>, keep: T -> bool)
    ensures Filter(Filter(s, keep), keep) == Filter(s, keep)
  {
    FilterKeepsAll(Filter(s, keep), keep);
  }

  /** Filtering the elements outside `p` and then with a `q` that already
      excludes every `p`-element is the same as filtering with `q`. */
  lemma {:induction false} FilterNarrow<T>(s: seq<T>, p: T -> bool, q: T -> bool)
    requires forall x :: x in s && q(x) ==> !p(x)
    ensures Filter(Filter(s, Not(p)), q) == Filter(s, q)
  {
    if |s| > 0 {
      assert s[0] in s;
      FilterNarrow(s[1..], p, q);
      if !p(s[0]) {
        var f := Filter(s, Not(p));
        assert f == [s[0]] + Filter(s[1..], Not(p));
        assert f[0] == s[0] && f[1..] == Filter(s[1..], Not(p));
      }
    }
  }

  /** Filters with predicates that agree on `s` give the same result. */
  lemma {:induction false} FilterAgree<T>(s: seq<T>, p: T -> bool, q: T -> bool)
    requires forall x :: x in s ==> (p(x) <==> q(x))
    ensures Filter(s, p) == Filter(s, q)
  {
    if |s| > 0 {
      assert s[0] in s;
      FilterAgree(s[1..], p, q);
    }
  }

  /** A predicate that implies another one is counted at most as often. */
  lemma {:induction false} CountMono<T>(s: seq<T>, p: T -> bool, q: T -> bool)
    requires forall x :: x in s && p(x) ==> q(x)
    ensures Count(s, p) <= Count(s, q)
  {
    if |s| > 0 {
      assert s[0] in s;
      CountMono(s[1..], p, q);
    }
  }

  /** Appending `y` onto a sequence with no `p`-element and then removing
      the first `p`-element gives the sequence back. */
  lemma {:induction false} RemoveFirstOfAppended<T>(s: seq<T>, y: T, p: T -> bool)
    requires forall x :: x in s ==> !p(x)
    requires p(y)
    ensures RemoveFirst(s + [y], p) == s
  {
    if |s| == 0 {
      assert s + [y] == [y];
    } else {
      assert s[0] in s;
      var t := s + [y];
      assert t[0] == s[0] && t[1..] == s[1..] + [y];
      RemoveFirstOfAppended(s[1..], y, p);
      assert RemoveFirst(t, p) == [s[0]] + s[1..];
      assert s == [s[0]] + s[1..];
    }
  }

  lemma PullAbsent<T>(s: seq<T>, x: T)
    requires x !in s
    ensures Pull(s, x) == s
  {
    FilterKeepsAll(s, NotEq(x));
  }

  /** `$pull` acts on each part of a concatenation separately, so the
      remaining elements keep their relative order. */
  lemma PullConcat<T>(a: seq<T>, b: seq<T>, x: T)
    ensures Pull(a + b, x) == Pull(a, x) + Pull(b, x)
  {
    FilterConcat(a, b, NotEq(x));
  }

  lemma PullTwice<T>(s: seq<T>, x: T)
    ensures Pull(Pull(s, x), x) == Pull(s, x)
  {
    FilterTwice(s, NotEq(x));
  }

  /** Adding an absent element and pulling it again restores the sequence. */
  lemma AddThenPull<T>(s: seq<T>, x: T)
    requires x !in s
    ensures Pull(AddToSet(s, x), x) == s
  {
    PullConcat(s, [x], x);
    PullAbsent(s, x);
    assert Pull([x], x) == [];
  }

  lemma AddToSetTwice<T>(s: seq<T>, x: T)
    ensures AddToSet(AddToSet(s, x), x) == AddToSet(s, x)
  {
  }

  ghost predicate Ascending<T>(s: seq<T>, rank: T -> int) {
    forall i, j :: 0 <= i < j < |s| ==> rank(s[i]) <= rank(s[j])
  }

  /** Inserts `x` before the first element of `s` whose rank is not smaller. */
  function Insert<T>(x: T, s: seq<T>, rank: T -> int): (r: seq<T>)
    ensures multiset(r) == multiset(s) + multiset{x}
    ensures forall y :: y in r ==> y == x || y in s
  {
    if |s| == 0 then [x]
    else if rank(x) <= rank(s[0]) then [x] + s
    else
      assert s == [s[0]] + s[1..];
      [s[0]] + Insert(x, s[1..], rank)
  }

  /** Inserting into an ascending sequence keeps it ascending. */
  lemma {:induction false} InsertAscending<T>(x: T, s: seq<T>, rank: T -> int)
    requires Ascending(s, rank)
    ensures Ascending(Insert(x, s, rank), rank)
  {
    if |s| == 0 {
    } else if rank(x) <= rank(s[0]) {
      assert forall k :: 0 < k < |s| ==> rank(s[0]) <= rank(s[k]);
      AscendingCons(x, s, rank);
    } else {
      var t := s[1..];
      assert Ascending(t, rank);
      InsertAscending(x, t, rank);
      var rest := Insert(x, t, rank);
      assert forall k :: 0 <= k < |t| ==> t[k] == s[k + 1];
      forall y | y in rest ensures rank(s[0]) <= rank(y) {
        if y != x {
          var k :| 0 <= k < |t| && t[k] == y;
        }
      }
      AscendingCons(s[0], rest, rank);
    }
  }

  lemma AscendingCons<T>(a: T, s: seq<T>, rank: T -> int)
    requires Ascending(s, rank)
    requires forall y :: y in s ==> rank(a) <= rank(y)
    ensures Ascending([a] + s, rank)
  {
    var r := [a] + s;
    forall i, j | 0 <= i < j < |r| ensures rank(r[i]) <= rank(r[j]) {
      assert r[j] == s[j - 1];
      if i > 0 { assert r[i] == s[i - 1]; }
    }
  }

  /** Stable insertion sort by ascending rank. */
  function SortBy<T>(s: seq<T>, rank: T -> int): (r: seq<T>)
    ensures Ascending(r, rank)
    ensures multiset(r) == multiset(s)
  {
    if |s| == 0 then []
    else
      assert s == [s[0]] + s[1..];
      InsertAscending(s[0], SortBy(s[1..], rank), rank);
      Insert(s[0], SortBy(s[1..], rank), rank)
  }
}
