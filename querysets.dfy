/** The part of the ORM's query-set semantics the views rely on: `filter`,
    `ordering = ("-stamp",)`, `get_or_create` and deleting one row. A table
    is a sequence of rows in insertion order. */
module QuerySets {

  datatype Option<T> = None | Some(value: T)

  /** `.get(...)` and `get_object_or_404(...)`: the position of the row that
      matches, or `None` when no row does. */
  function FindIndex<T(!new)>(s: seq<T>, matches: T -> bool): (r: Option<nat>)
    ensures r.Some? ==> r.value < |s| && matches(s[r.value])
    ensures r.Some? ==> forall j :: 0 <= j < r.value ==> !matches(s[j])
    ensures r.None? <==> forall x :: x in s ==> !matches(x)
  {
    if s == [] then None
    else if matches(s[0]) then Some(0)
    else match FindIndex(s[1..], matches)
      case None => None
      case Some(k) => Some(k + 1)
  }

  function EqualTo<T(==)>(x: T): T -> bool { y => y == x }
  function OtherThan<T(==)>(x: T): T -> bool { y => y != x }

  /** No two rows agree on `key` (a unique column or unique constraint). */
  predicate UniqueBy<T(!new), K(==)>(s: seq<T>, key: T -> K) {
    forall i, j :: 0 <= i < j < |s| ==> key(s[i]) != key(s[j])
  }

  /** No row occurs twice. */
  predicate Distinct<T(!new,==)>(s: seq<T>) {
    forall i, j :: 0 <= i < j < |s| ==> s[i] != s[j]
  }

  /** `filter(...)`: the rows satisfying `keep`, in their original order. */
  function Filter<T(!new)>(s: seq<T>, keep: T -> bool): (r: seq<T>)
    ensures |r| <= |s|
    ensures forall x :: x in r <==> x in s && keep(x)
  {
    if s == [] then []
    else if keep(s[0]) then [s[0]] + Filter(s[1..], keep)
    else Filter(s[1..], keep)
  }

  lemma {:induction false} FilterConcat<T(!new)>(a: seq<T>, b: seq<T>, keep: T -> bool)
    ensures Filter(a + b, keep) == Filter(a, keep) + Filter(b, keep)
  {
    if a == [] {
      assert a + b == b;
    } else {
      assert (a + b)[0] == a[0] && (a + b)[1..] == a[1..] + b;
      FilterConcat(a[1..], b, keep);
    }
  }

  /** Filtering with a condition every row meets keeps the table as it is. */
  lemma {:induction false} FilterKeepsAll<T(!new)>(s: seq<T>, keep: T -> bool)
    requires forall x :: x in s ==> keep(x)
    ensures Filter(s, keep) == s
  {
    if s != [] {
      FilterKeepsAll(s[1..], keep);
    }
  }

  /** Filtering never creates a duplicate key. */
  lemma {:induction false} FilterUniqueBy<T(!new), K>(s: seq<T>, keep: T -> bool, key: T -> K)
    requires UniqueBy(s, key)
    ensures UniqueBy(Filter(s, keep), key)
  {
    if s != [] {
      FilterUniqueBy(s[1..], keep, key);
      var tail := Filter(s[1..], keep);
      if keep(s[0]) {
        var r := [s[0]] + tail;
        forall i, j | 0 <= i < j < |r| ensures key(r[i]) != key(r[j]) {
          if i == 0 {
            assert r[j] in s[1..];
            var k :| 0 <= k < |s[1..]| && s[1..][k] == r[j];
            assert s[k + 1] == r[j];
          } else {
            assert r[i] == tail[i - 1] && r[j] == tail[j - 1];
          }
        }
      }
    }
  }

  lemma {:induction false} FilterDistinct<T(!new)>(s: seq<T>, keep: T -> bool)
    requires Distinct(s)
    ensures Distinct(Filter(s, keep))
  {
    if s != [] {
      FilterDistinct(s[1..], keep);
      var tail := Filter(s[1..], keep);
      if keep(s[0]) {
        var r := [s[0]] + tail;
        forall i, j | 0 <= i < j < |r| ensures r[i] != r[j] {
          if i == 0 {
            assert r[j] in s[1..];
            var k :| 0 <= k < |s[1..]| && s[1..][k] == r[j];
            assert s[k + 1] == r[j];
          } else {
            assert r[i] == tail[i - 1] && r[j] == tail[j - 1];
          }
        }
      }
    }
  }

  /** In a table without duplicates, exactly one row or none equals `x`. */
  lemma {:induction false} DistinctMatchesAtMostOne<T(!new)>(s: seq<T>, x: T)
    requires Distinct(s)
    ensures |Filter(s, EqualTo(x))| == if x in s then 1 else 0
  {
    if s != [] {
      assert Distinct(s[1..]) by {
        forall i, j | 0 <= i < j < |s[1..]| ensures s[1..][i] != s[1..][j] {
          assert s[1..][i] == s[i + 1] && s[1..][j] == s[j + 1];
        }
      }
      DistinctMatchesAtMostOne(s[1..], x);
      if s[0] == x {
        forall k | 0 <= k < |s[1..]| ensures s[1..][k] != x {
          assert s[1..][k] == s[k + 1];
        }
      } else {
        assert x in s <==> x in s[1..];
      }
    }
  }

  /** The rows are in newest-first order of `stamp` (`ordering = ("-stamp",)`). */
  predicate NewestFirst<T(!new)>(s: seq<T>, stamp: T -> nat) {
    forall i, j :: 0 <= i < j < |s| ==> stamp(s[i]) >= stamp(s[j])
  }

  /** Every row of a newest-first table is at most as new as its first row. */
  lemma NewestFirstHead<T(!new)>(s: seq<T>, stamp: T -> nat, y: T)
    requires NewestFirst(s, stamp) && y in s
    ensures stamp(y) <= stamp(s[0])
  {
    var k :| 0 <= k < |s| && s[k] == y;
    if k > 0 {
      assert stamp(s[0]) >= stamp(s[k]);
    }
  }

  /** Places `x` before the first row that is not newer than it, so that
      among rows with equal stamps the earlier-inserted one comes first. */
  function Insert<T(!new)>(x: T, s: seq<T>, stamp: T -> nat): (r: seq<T>)
    requires NewestFirst(s, stamp)
    ensures NewestFirst(r, stamp)
    ensures multiset(r) == multiset(s) + multiset{x}
  {
    if s == [] || stamp(s[0]) <= stamp(x) then
      assert forall y :: y in s ==> stamp(y) <= stamp(x) by {
        forall y | y in s ensures stamp(y) <= stamp(x) {
          NewestFirstHead(s, stamp, y);
        }
      }
      [x] + s
    else
      var tail := Insert(x, s[1..], stamp);
      assert forall y :: y in tail ==> stamp(y) <= stamp(s[0]) by {
        forall y | y in tail ensures stamp(y) <= stamp(s[0]) {
          assert y in multiset(tail);
          if y != x {
            assert y in s[1..];
            NewestFirstHead(s, stamp, y);
          }
        }
      }
      assert s == [s[0]] + s[1..];
      [s[0]] + tail
  }

  /** The table ordered newest-first; rows with equal stamps keep their
      insertion order. */
  function OrderNewestFirst<T(!new)>(s: seq<T>, stamp: T -> nat): (r: seq<T>)
    ensures NewestFirst(r, stamp)
    ensures multiset(r) == multiset(s)
  {
    if s == [] then []
    else
      assert s == [s[0]] + s[1..];
      Insert(s[0], OrderNewestFirst(s[1..], stamp), stamp)
  }

  lemma {:induction false} FilterInsert<T(!new)>(x: T, s: seq<T>, stamp: T -> nat, keep: T -> bool)
    requires NewestFirst(s, stamp)
    ensures NewestFirst(Filter(s, keep), stamp)
    ensures Filter(Insert(x, s, stamp), keep)
         == if keep(x) then Insert(x, Filter(s, keep), stamp) else Filter(s, keep)
  {
    FilterNewestFirst(s, stamp, keep);
    if s == [] || stamp(s[0]) <= stamp(x) {
      assert Insert(x, s, stamp) == [x] + s;
      var fs := Filter(s, keep);
      if keep(x) && fs != [] {
        assert fs[0] in s;
        NewestFirstHead(s, stamp, fs[0]);
      }
    } else {
      assert s == [s[0]] + s[1..];
      FilterInsert(x, s[1..], stamp, keep);
    }
  }

  /** A subsequence of a newest-first table is newest-first. */
  lemma {:induction false} FilterNewestFirst<T(!new)>(s: seq<T>, stamp: T -> nat, keep: T -> bool)
    requires NewestFirst(s, stamp)
    ensures NewestFirst(Filter(s, keep), stamp)
  {
    if s != [] {
      FilterNewestFirst(s[1..], stamp, keep);
      if keep(s[0]) {
        var tail := Filter(s[1..], keep);
        var r := [s[0]] + tail;
        forall i, j | 0 <= i < j < |r| ensures stamp(r[i]) >= stamp(r[j]) {
          if i == 0 {
            assert r[j] == tail[j - 1] && r[j] in s[1..];
            NewestFirstHead(s, stamp, r[j]);
          } else {
            assert r[i] == tail[i - 1] && r[j] == tail[j - 1];
          }
        }
      }
    }
  }

  /** Filtering the ordered table gives the same rows in the same order as
      ordering the filtered table: a `filter` followed by the model's
      default ordering shows the rows exactly as the full listing does. */
  lemma {:induction false} FilterOrderCommute<T(!new)>(s: seq<T>, stamp: T -> nat, keep: T -> bool)
    ensures Filter(OrderNewestFirst(s, stamp), keep) == OrderNewestFirst(Filter(s, keep), stamp)
  {
    if s != [] {
      FilterOrderCommute(s[1..], stamp, keep);
      FilterInsert(s[0], OrderNewestFirst(s[1..], stamp), stamp, keep);
    }
  }

  /** `get_or_create`: inserts `x` at the end unless an equal row exists. */
  function GetOrCreate<T(!new,==)>(s: seq<T>, x: T): (r: seq<T>)
    ensures forall y :: y in r <==> y in s || y == x
    ensures x in s ==> r == s
    ensures |s| <= |r| <= |s| + 1 && r[..|s|] == s
    ensures Distinct(s) ==> Distinct(r)
  {
    if x in s then s else s + [x]
  }

  /** Repeating `get_or_create` changes nothing. */
  lemma GetOrCreateIdempotent<T(!new)>(s: seq<T>, x: T)
    ensures GetOrCreate(GetOrCreate(s, x), x) == GetOrCreate(s, x)
  {
  }

  /** Deletes every row equal to `x`. */
  function Delete<T(!new,==)>(s: seq<T>, x: T): (r: seq<T>)
    ensures forall y :: y in r <==> y in s && y != x
    ensures Distinct(s) ==> Distinct(r)
    ensures Distinct(s) && x in s ==> |r| == |s| - 1
  {
    var r := Filter(s, OtherThan(x));
    DeleteCount(s, x);
    if Distinct(s) then
      FilterDistinct(s, OtherThan(x));
      r
    else
      r
  }

  /** The rows equal to `x` and the others split the table. */
  lemma {:induction false} SplitCount<T(!new)>(s: seq<T>, x: T)
    ensures |Filter(s, EqualTo(x))| + |Filter(s, OtherThan(x))| == |s|
  {
    if s != [] {
      SplitCount(s[1..], x);
    }
  }

  lemma DeleteCount<T(!new)>(s: seq<T>, x: T)
    ensures Distinct(s) && x in s ==> |Filter(s, OtherThan(x))| == |s| - 1
  {
    if Distinct(s) && x in s {
      SplitCount(s, x);
      DistinctMatchesAtMostOne(s, x);
    }
  }

  /** Creating a row that was absent and deleting it again restores the table. */
  lemma {:induction false} CreateThenDelete<T(!new)>(s: seq<T>, x: T)
    requires x !in s
    ensures Delete(GetOrCreate(s, x), x) == s
  {
    FilterConcat(s, [x], OtherThan(x));
    FilterKeepsAll(s, OtherThan(x));
  }
}
