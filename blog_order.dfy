/** The order of the admin blogs table: a comparator per sortable field and direction,
    and the stable sort that `Array.prototype.sort` performs with it. */
module BlogOrder {
  import opened Seqs
  import opened BlogTypes
  import opened Strings

  /** `keyof Blog`, the type of the table's sort field. */
  datatype SortField = Id | Title | Content | Author | AuthorAvatar | CreatedAt | ReadTime | Tags | Featured | Likes | Bookmarks

  datatype SortDirection = Asc | Desc

  /** `Number(flag)`. */
  function FlagValue(b: bool): int
  {
    if b then 1 else 0
  }

  /** a and b have the same value in field f, as far as the comparator can see: every
      field it does not compare ties. */
  predicate TiesOn(f: SortField, a: Blog, b: Blog)
  {
    match f
    case Title => a.title == b.title
    case Author => a.author == b.author
    case CreatedAt => a.createdAt == b.createdAt
    case Featured => a.featured == b.featured
    case _ => true
  }

  /** The ascending comparison of a and b on field f. Text fields compare by code points
      (standing in for `localeCompare`), dates by their `YYYY-MM-DD` text (standing in for
      `new Date(...).getTime()`), the featured flag as 0 and 1; every other field compares equal. */
  function AscendingCompare(f: SortField, a: Blog, b: Blog): (r: int)
    ensures -1 <= r <= 1
    ensures r == 0 <==> TiesOn(f, a, b)
    ensures f == Featured ==> (r > 0 <==> a.featured && !b.featured)
  {
    match f
    case Title => StrCmpAntisymmetric(a.title, b.title); StrCmp(a.title, b.title)
    case Author => StrCmpAntisymmetric(a.author, b.author); StrCmp(a.author, b.author)
    case CreatedAt => StrCmpAntisymmetric(a.createdAt, b.createdAt); StrCmp(a.createdAt, b.createdAt)
    case Featured => FlagValue(a.featured) - FlagValue(b.featured)
    case _ => 0
  }

  /** The comparator handed to `sort`: descending order swaps the operands, which reverses
      the ascending order. */
  function Compare(f: SortField, d: SortDirection, a: Blog, b: Blog): (r: int)
    ensures r == if d == Asc then AscendingCompare(f, a, b) else -AscendingCompare(f, a, b)
    ensures r == 0 <==> TiesOn(f, a, b)
  {
    if d == Asc then AscendingCompare(f, a, b)
    else
      StrCmpAntisymmetric(a.title, b.title);
      StrCmpAntisymmetric(a.author, b.author);
      StrCmpAntisymmetric(a.createdAt, b.createdAt);
      AscendingCompare(f, b, a)
  }

  /** Swapping the operands negates the comparator. */
  lemma CompareAntisymmetric(f: SortField, d: SortDirection, a: Blog, b: Blog)
    ensures Compare(f, d, a, b) == -Compare(f, d, b, a)
  {
    StrCmpAntisymmetric(a.title, b.title);
    StrCmpAntisymmetric(a.author, b.author);
    StrCmpAntisymmetric(a.createdAt, b.createdAt);
  }

  /** "Not after" is transitive for every field and direction. */
  lemma CompareTransitive(f: SortField, d: SortDirection, a: Blog, b: Blog, c: Blog)
    requires Compare(f, d, a, b) <= 0 && Compare(f, d, b, c) <= 0
    ensures Compare(f, d, a, c) <= 0
  {
    if d == Asc {
      match f
      case Title => StrCmpTransitive(a.title, b.title, c.title);
      case Author => StrCmpTransitive(a.author, b.author, c.author);
      case CreatedAt => StrCmpTransitive(a.createdAt, b.createdAt, c.createdAt);
      case _ =>
    } else {
      match f
      case Title => StrCmpTransitive(c.title, b.title, a.title);
      case Author => StrCmpTransitive(c.author, b.author, a.author);
      case CreatedAt => StrCmpTransitive(c.createdAt, b.createdAt, a.createdAt);
      case _ =>
    }
  }

  /** No element comes after one that the comparator puts behind it. */
  ghost predicate Sorted(s: seq<Blog>, f: SortField, d: SortDirection)
  {
    forall i, j :: 0 <= i < j < |s| ==> Compare(f, d, s[i], s[j]) <= 0
  }

  /** Inserts x before the first element it strictly precedes, so after every element
      it ties with: the step of a stable insertion sort. */
  function Insert(x: Blog, s: seq<Blog>, f: SortField, d: SortDirection): (r: seq<Blog>)
    ensures multiset(r) == multiset(s) + multiset{x}
    ensures |r| == |s| + 1
    decreases |s|
  {
    if s == [] then [x]
    else if Compare(f, d, x, s[0]) < 0 then [x] + s
    else
      assert s == [s[0]] + s[1..];
      [s[0]] + Insert(x, s[1..], f, d)
  }

  /** The tail of a sorted list is sorted. */
  lemma SortedTail(s: seq<Blog>, f: SortField, d: SortDirection)
    requires s != [] && Sorted(s, f, d)
    ensures Sorted(s[1..], f, d)
  {
    forall i, j | 0 <= i < j < |s[1..]| ensures Compare(f, d, s[1..][i], s[1..][j]) <= 0 {
      assert s[1..][i] == s[i + 1] && s[1..][j] == s[j + 1];
    }
  }

  /** The head of a sorted list precedes everything after it. */
  lemma SortedHead(s: seq<Blog>, f: SortField, d: SortDirection)
    requires s != [] && Sorted(s, f, d)
    ensures forall y :: y in multiset(s[1..]) ==> Compare(f, d, s[0], y) <= 0
  {
    forall y | y in multiset(s[1..]) ensures Compare(f, d, s[0], y) <= 0 {
      var k :| 0 <= k < |s[1..]| && s[1..][k] == y;
      assert s[k + 1] == y;
    }
  }

  /** Putting in front of a sorted list an element that precedes all of it keeps it sorted. */
  lemma SortedCons(x: Blog, s: seq<Blog>, f: SortField, d: SortDirection)
    requires Sorted(s, f, d)
    requires forall y :: y in multiset(s) ==> Compare(f, d, x, y) <= 0
    ensures Sorted([x] + s, f, d)
  {
    var r := [x] + s;
    forall i, j | 0 <= i < j < |r| ensures Compare(f, d, r[i], r[j]) <= 0 {
      if i == 0 {
        assert r[j] == s[j - 1];
        assert r[j] in multiset(s);
      } else {
        assert r[i] == s[i - 1] && r[j] == s[j - 1];
      }
    }
  }

  /** Insertion into a sorted list keeps it sorted. */
  lemma {:induction false} InsertSorted(x: Blog, s: seq<Blog>, f: SortField, d: SortDirection)
    requires Sorted(s, f, d)
    ensures Sorted(Insert(x, s, f, d), f, d)
    decreases |s|
  {
    if s == [] {
    } else if Compare(f, d, x, s[0]) < 0 {
      forall y | y in multiset(s) ensures Compare(f, d, x, y) <= 0 {
        var k :| 0 <= k < |s| && s[k] == y;
        if k > 0 {
          CompareTransitive(f, d, x, s[0], y);
        }
      }
      SortedCons(x, s, f, d);
    } else {
      SortedTail(s, f, d);
      InsertSorted(x, s[1..], f, d);
      var rest := Insert(x, s[1..], f, d);
      CompareAntisymmetric(f, d, x, s[0]);
      SortedHead(s, f, d);
      SortedCons(s[0], rest, f, d);
    }
  }

  /** `[...blogs].sort(comparator)`: a sorted permutation of the input, which is left as it was. */
  function Sort(s: seq<Blog>, f: SortField, d: SortDirection): (r: seq<Blog>)
    ensures multiset(r) == multiset(s)
    ensures |r| == |s|
    ensures Sorted(r, f, d)
    decreases |s|
  {
    if s == [] then []
    else
      var n := |s| - 1;
      assert s == s[..n] + [s[n]];
      InsertSorted(s[n], Sort(s[..n], f, d), f, d);
      Insert(s[n], Sort(s[..n], f, d), f, d)
  }

  /** A prefix of a sorted list is sorted. */
  lemma SortedPrefix(s: seq<Blog>, k: nat, f: SortField, d: SortDirection)
    requires Sorted(s, f, d) && k <= |s|
    ensures Sorted(s[..k], f, d)
  {
    forall i, j | 0 <= i < j < k ensures Compare(f, d, s[..k][i], s[..k][j]) <= 0 {
      assert s[..k][i] == s[i] && s[..k][j] == s[j];
    }
  }

  /** Filtering a sorted list keeps it sorted. */
  lemma {:induction false} FilterSorted(s: seq<Blog>, p: Blog -> bool, f: SortField, d: SortDirection)
    requires Sorted(s, f, d)
    ensures Sorted(Filter(s, p), f, d)
    decreases |s|
  {
    if s != [] {
      SortedTail(s, f, d);
      FilterSorted(s[1..], p, f, d);
      var rest := Filter(s[1..], p);
      if p(s[0]) {
        SortedHead(s, f, d);
        forall y | y in multiset(rest) ensures y in multiset(s[1..]) {
          var i :| 0 <= i < |rest| && rest[i] == y;
        }
        SortedCons(s[0], rest, f, d);
        assert Filter(s, p) == [s[0]] + rest;
      }
    }
  }

  /** Sorting a list whose ids are distinct keeps them distinct. */
  lemma {:induction false} SortDistinctIds(s: seq<Blog>, f: SortField, d: SortDirection)
    requires DistinctIds(s)
    ensures DistinctIds(Sort(s, f, d))
    decreases |s|
  {
    if s != [] {
      var n := |s| - 1;
      var init := s[..n];
      assert s == init + [s[n]];
      SortDistinctIds(init, f, d);
      var sorted := Sort(init, f, d);
      forall y | y in sorted ensures y.id != s[n].id {
        assert y in multiset(init);
        var k :| 0 <= k < n && s[k] == y;
      }
      InsertDistinctIds(s[n], sorted, f, d);
    }
  }

  /** Inserting a blog whose id the list lacks keeps ids distinct. */
  lemma {:induction false} InsertDistinctIds(x: Blog, s: seq<Blog>, f: SortField, d: SortDirection)
    requires DistinctIds(s)
    requires forall y :: y in s ==> y.id != x.id
    ensures DistinctIds(Insert(x, s, f, d))
    decreases |s|
  {
    if s != [] && Compare(f, d, x, s[0]) >= 0 {
      DistinctIdsTail(s);
      assert forall y :: y in s[1..] ==> y in s;
      InsertDistinctIds(x, s[1..], f, d);
      var rest := Insert(x, s[1..], f, d);
      forall y | y in rest ensures y.id != s[0].id {
        assert y in multiset(rest);
      }
      DistinctIdsCons(s[0], rest);
      assert Insert(x, s, f, d) == [s[0]] + rest;
    } else {
      DistinctIdsCons(x, s);
    }
  }
}
