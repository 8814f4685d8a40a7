/**
  `list.sort(key=...)`: a stable insertion sort over any total preorder,
  proved to sort and to permute, and the two orders the program sorts
  photos by: file name without regard to case, and capture time.
 */
module Ordering {
  import opened Text
  import opened Metadata

  ghost predicate TotalPreorder<T(!new)>(le: (T, T) -> bool) {
    && (forall a, b :: le(a, b) || le(b, a))
    && (forall a, b, c :: le(a, b) && le(b, c) ==> le(a, c))
  }

  ghost predicate Sorted<T>(s: seq<T>, le: (T, T) -> bool) {
    forall i, j :: 0 <= i < j < |s| ==> le(s[i], s[j])
  }

  /** `x` goes before the first element strictly above it, so it follows every element it ties with. */
  function Insert<T>(x: T, t: seq<T>, le: (T, T) -> bool): (r: seq<T>)
    ensures multiset(r) == multiset(t) + multiset{x}
  {
    if |t| == 0 then [x]
    else if le(x, t[0]) && !le(t[0], x) then [x] + t
    else
      assert t == [t[0]] + t[1..];
      [t[0]] + Insert(x, t[1..], le)
  }

  /** Sorting by inserting each element, first to last, into the sorted prefix. */
  function SortBy<T>(s: seq<T>, le: (T, T) -> bool): (r: seq<T>)
    ensures multiset(r) == multiset(s)
  {
    if |s| == 0 then []
    else
      assert s == s[..|s| - 1] + [s[|s| - 1]];
      Insert(s[|s| - 1], SortBy(s[..|s| - 1], le), le)
  }

  lemma {:induction false} InsertSorted<T(!new)>(x: T, t: seq<T>, le: (T, T) -> bool)
    requires TotalPreorder(le) && Sorted(t, le)
    ensures Sorted(Insert(x, t, le), le)
  {
    if |t| > 0 && !(le(x, t[0]) && !le(t[0], x)) {
      var rest := Insert(x, t[1..], le);
      InsertSorted(x, t[1..], le);
      assert le(t[0], x);
      forall y | y in rest ensures le(t[0], y) {
        assert y in multiset(rest);
        if y != x {
          assert y in multiset(t[1..]);
          var k :| 0 <= k < |t[1..]| && t[1..][k] == y;
          assert t[k + 1] == y;
        }
      }
      forall i, j | 0 <= i < j < |[t[0]] + rest| ensures le(([t[0]] + rest)[i], ([t[0]] + rest)[j]) {
        if i == 0 {
          assert ([t[0]] + rest)[j] == rest[j - 1];
          assert rest[j - 1] in rest;
        }
      }
    } else if |t| > 0 {
      forall y | y in t ensures le(x, y) {
        var k :| 0 <= k < |t| && t[k] == y;
        if k > 0 {
          assert le(t[0], t[k]);
        }
      }
      forall i, j | 0 <= i < j < |[x] + t| ensures le(([x] + t)[i], ([x] + t)[j]) {
        if i == 0 {
          assert ([x] + t)[j] == t[j - 1];
          assert t[j - 1] in t;
        }
      }
    }
  }

  /** The result is ordered, and (by the contract of `SortBy`) a permutation of the input. */
  lemma {:induction false} SortBySorted<T(!new)>(s: seq<T>, le: (T, T) -> bool)
    requires TotalPreorder(le)
    ensures Sorted(SortBy(s, le), le)
    ensures |SortBy(s, le)| == |s|
  {
    var r := SortBy(s, le);
    assert |r| == |multiset(r)| == |multiset(s)| == |s|;
    if |s| > 0 {
      SortBySorted(s[..|s| - 1], le);
      InsertSorted(s[|s| - 1], SortBy(s[..|s| - 1], le), le);
    }
  }

  /** Sorting a list that is already in order changes nothing. */
  lemma {:induction false} SortBySortedIsIdentity<T(!new)>(s: seq<T>, le: (T, T) -> bool)
    requires Sorted(s, le)
    ensures SortBy(s, le) == s
  {
    if |s| > 0 {
      var p := s[..|s| - 1];
      assert Sorted(p, le);
      SortBySortedIsIdentity(p, le);
      AppendLast(s[|s| - 1], p, le);
      assert p + [s[|s| - 1]] == s;
    }
  }

  lemma {:induction false} AppendLast<T>(x: T, t: seq<T>, le: (T, T) -> bool)
    requires forall i :: 0 <= i < |t| ==> le(t[i], x)
    ensures Insert(x, t, le) == t + [x]
  {
    if |t| > 0 {
      AppendLast(x, t[1..], le);
      assert [t[0]] + (t[1..] + [x]) == t + [x];
    }
  }

  /** The key of `sort_by_name` and of the ingestion sort: the file name, lower-cased. */
  function NameKey(p: PhotoRecord): string {
    Lower(p.path.name)
  }

  /** Any two photos compare one way or the other by lower-cased name. */
  predicate NameLe(a: PhotoRecord, b: PhotoRecord): (r: bool)
    ensures r || LexLe(NameKey(b), NameKey(a))
  {
    LexLeTotal(NameKey(a), NameKey(b));
    LexLe(NameKey(a), NameKey(b))
  }

  /** Any two photos compare one way or the other by capture time. */
  predicate TimeLe(a: PhotoRecord, b: PhotoRecord): (r: bool)
    ensures r || b.timestamp <= a.timestamp
  {
    a.timestamp <= b.timestamp
  }

  lemma NameLeIsTotalPreorder()
    ensures TotalPreorder(NameLe)
  {
    forall a: PhotoRecord, b: PhotoRecord ensures NameLe(a, b) || NameLe(b, a) {
      LexLeTotal(NameKey(a), NameKey(b));
    }
    forall a: PhotoRecord, b: PhotoRecord, c: PhotoRecord | NameLe(a, b) && NameLe(b, c) ensures NameLe(a, c) {
      LexLeTransitive(NameKey(a), NameKey(b), NameKey(c));
    }
  }

  lemma TimeLeIsTotalPreorder()
    ensures TotalPreorder(TimeLe)
  {
  }

  /** Sorting by name orders photos by lower-cased file name and keeps every photo. */
  lemma SortByNameOrders(photos: seq<PhotoRecord>)
    ensures var r := SortBy(photos, NameLe);
      && multiset(r) == multiset(photos)
      && forall i, j :: 0 <= i < j < |r| ==> LexLe(NameKey(r[i]), NameKey(r[j]))
  {
    NameLeIsTotalPreorder();
    SortBySorted(photos, NameLe);
  }

  /** Sorting by time orders photos by capture time and keeps every photo. */
  lemma SortByTimeOrders(photos: seq<PhotoRecord>)
    ensures var r := SortBy(photos, TimeLe);
      && multiset(r) == multiset(photos)
      && forall i, j :: 0 <= i < j < |r| ==> r[i].timestamp <= r[j].timestamp
  {
    TimeLeIsTotalPreorder();
    SortBySorted(photos, TimeLe);
  }
}
