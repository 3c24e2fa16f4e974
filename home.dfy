/** The home page's list logic: the featured-articles selection and the bookmark toggle.
    Both are computed from values, as the page's `useMemo` and its functional state
    updater do; the store's `blogs` is never reordered. */
module Home {
  import opened Seqs
  import opened BlogTypes
  import opened BlogOrder

  function IsFeatured(): Blog -> bool
  {
    (b: Blog) => b.featured
  }

  function NotFeatured(): Blog -> bool
  {
    (b: Blog) => !b.featured
  }

  /** `b => !chosen.some(f => f._id === b._id)`. */
  function NotAmong(chosen: seq<Blog>): Blog -> bool
  {
    (b: Blog) => !(exists i :: 0 <= i < |chosen| && chosen[i].id == b.id)
  }

  /** The featured blogs of a list, in list order. */
  function FeaturedOf(blogs: seq<Blog>): seq<Blog>
  {
    Filter(blogs, IsFeatured())
  }

  /** `s.slice(0, n)`. */
  function Take<T>(s: seq<T>, n: nat): (r: seq<T>)
    ensures |r| == if |s| < n then |s| else n
    ensures r == s[..|r|]
  {
    if |s| <= n then s else s[..n]
  }

  /** The non-chosen blogs, newest first: a copy of the list sorted by `createdAt`
      descending, without the ids already chosen. */
  function Latest(blogs: seq<Blog>, chosen: seq<Blog>): (r: seq<Blog>)
    ensures Sorted(r, CreatedAt, Desc)
    ensures forall b :: multiset(r)[b] == if NotAmong(chosen)(b) then multiset(blogs)[b] else 0
  {
    FilterSorted(Sort(blogs, CreatedAt, Desc), NotAmong(chosen), CreatedAt, Desc);
    FilterCounts(Sort(blogs, CreatedAt, Desc), NotAmong(chosen));
    Filter(Sort(blogs, CreatedAt, Desc), NotAmong(chosen))
  }

  /** `featuredBlogs`: the first three featured blogs, topped up with the newest others. */
  function FeaturedBlogs(blogs: seq<Blog>): (r: seq<Blog>)
    ensures |r| <= 3
  {
    var featured := Take(FeaturedOf(blogs), 3);
    if |featured| < 3 then featured + Take(Latest(blogs, featured), 3 - |featured|)
    else featured
  }

  /** Filtering a list whose ids are distinct keeps them distinct. */
  lemma {:induction false} FilterDistinctIds(s: seq<Blog>, p: Blog -> bool)
    requires DistinctIds(s)
    ensures DistinctIds(Filter(s, p))
    decreases |s|
  {
    if s != [] {
      DistinctIdsTail(s);
      FilterDistinctIds(s[1..], p);
      var rest := Filter(s[1..], p);
      if p(s[0]) {
        DistinctIdsCons(s[0], rest);
        assert Filter(s, p) == [s[0]] + rest;
      } else {
        assert Filter(s, p) == rest;
      }
    }
  }

  /** A blog of the list that is featured is among the featured ones. */
  lemma FeaturedAmong(blogs: seq<Blog>, b: Blog)
    requires b in blogs && b.featured
    ensures !NotAmong(FeaturedOf(blogs))(b)
  {
    var k :| 0 <= k < |blogs| && blogs[k] == b;
    var f := FeaturedOf(blogs);
    assert b in f;
    var j :| 0 <= j < |f| && f[j] == b;
  }

  /** With at least three featured blogs, the selection is the first three of them, in
      list order. */
  lemma EnoughFeatured(blogs: seq<Blog>)
    requires |FeaturedOf(blogs)| >= 3
    ensures FeaturedBlogs(blogs) == FeaturedOf(blogs)[..3]
  {
  }

  /** The top-up candidates are sorted newest first, drawn from the list, and none of them
      is featured. */
  lemma LatestNotFeatured(blogs: seq<Blog>)
    ensures var latest := Latest(blogs, FeaturedOf(blogs));
      Sorted(latest, CreatedAt, Desc) &&
      forall i :: 0 <= i < |latest| ==> latest[i] in blogs && !latest[i].featured
  {
    var f := FeaturedOf(blogs);
    var sorted := Sort(blogs, CreatedAt, Desc);
    var latest := Latest(blogs, f);
    FilterSorted(sorted, NotAmong(f), CreatedAt, Desc);
    forall i | 0 <= i < |latest| ensures latest[i] in blogs && !latest[i].featured {
      var b := latest[i];
      assert b in sorted && NotAmong(f)(b);
      assert b in multiset(sorted);
      if b.featured {
        FeaturedAmong(blogs, b);
      }
    }
  }

  /** With fewer than three featured, the selection is those followed by the newest others. */
  lemma FeaturedBlogsShape(blogs: seq<Blog>)
    requires |FeaturedOf(blogs)| < 3
    ensures FeaturedBlogs(blogs) ==
      FeaturedOf(blogs) + Take(Latest(blogs, FeaturedOf(blogs)), 3 - |FeaturedOf(blogs)|)
  {
    var f := FeaturedOf(blogs);
    var featured := Take(f, 3);
    assert featured == f;
    assert FeaturedBlogs(blogs) == featured + Take(Latest(blogs, featured), 3 - |featured|);
  }

  /** With fewer than three featured blogs, the selection is all of them in list order,
      then blogs that are not featured, newest first. */
  lemma FewFeatured(blogs: seq<Blog>)
    requires |FeaturedOf(blogs)| < 3
    ensures |FeaturedOf(blogs)| <= |FeaturedBlogs(blogs)|
    ensures FeaturedBlogs(blogs)[..|FeaturedOf(blogs)|] == FeaturedOf(blogs)
    ensures Sorted(FeaturedBlogs(blogs)[|FeaturedOf(blogs)|..], CreatedAt, Desc)
    ensures forall i :: |FeaturedOf(blogs)| <= i < |FeaturedBlogs(blogs)| ==>
      FeaturedBlogs(blogs)[i] in blogs && !FeaturedBlogs(blogs)[i].featured
  {
    var f := FeaturedOf(blogs);
    var latest := Latest(blogs, f);
    FeaturedBlogsShape(blogs);
    LatestNotFeatured(blogs);
    TopUp(f, latest, 3 - |f|, blogs);
  }

  /** Appending a prefix of a sorted list of other blogs. */
  lemma TopUp(f: seq<Blog>, latest: seq<Blog>, n: nat, blogs: seq<Blog>)
    requires Sorted(latest, CreatedAt, Desc)
    requires forall i :: 0 <= i < |latest| ==> latest[i] in blogs && !latest[i].featured
    ensures var r := f + Take(latest, n);
      r[..|f|] == f && Sorted(r[|f|..], CreatedAt, Desc) &&
      forall i :: |f| <= i < |r| ==> r[i] in blogs && !r[i].featured
  {
    var tail := Take(latest, n);
    var r := f + tail;
    assert r[..|f|] == f;
    assert r[|f|..] == tail;
    SortedPrefix(latest, |tail|, CreatedAt, Desc);
    forall i | |f| <= i < |r| ensures r[i] in blogs && !r[i].featured {
      assert r[i] == latest[i - |f|];
    }
  }

  /** When ids are distinct, the blogs that are not featured are exactly those whose id no
      featured blog has. */
  lemma NotAmongFeatured(blogs: seq<Blog>, b: Blog)
    requires DistinctIds(blogs) && b in blogs
    ensures NotAmong(FeaturedOf(blogs))(b) == NotFeatured()(b)
  {
    if b.featured {
      FeaturedAmong(blogs, b);
    }
  }

  /** With distinct ids, there are as many top-up candidates as blogs that are not
      featured, and their ids are distinct. */
  lemma LatestCount(blogs: seq<Blog>)
    requires DistinctIds(blogs)
    ensures |Latest(blogs, FeaturedOf(blogs))| == |blogs| - |FeaturedOf(blogs)|
    ensures DistinctIds(Latest(blogs, FeaturedOf(blogs)))
  {
    var f := FeaturedOf(blogs);
    var sorted := Sort(blogs, CreatedAt, Desc);
    FilterSplitLength(blogs, IsFeatured(), NotFeatured());
    forall i | 0 <= i < |sorted| ensures NotAmong(f)(sorted[i]) == NotFeatured()(sorted[i]) {
      assert sorted[i] in multiset(sorted);
      NotAmongFeatured(blogs, sorted[i]);
    }
    FilterExt(sorted, NotAmong(f), NotFeatured());
    FilterLengthPermutation(sorted, blogs, NotFeatured());
    SortDistinctIds(blogs, CreatedAt, Desc);
    FilterDistinctIds(sorted, NotAmong(f));
  }

  /** A prefix of a list with distinct ids has distinct ids. */
  lemma PrefixDistinctIds(s: seq<Blog>, n: nat)
    requires DistinctIds(s) && n <= |s|
    ensures DistinctIds(s[..n])
  {
    forall i, j | 0 <= i < j < n ensures s[..n][i].id != s[..n][j].id {
      assert s[..n][i] == s[i] && s[..n][j] == s[j];
    }
  }

  /** Topping fewer than three blogs up from a list of others, with `total` blogs in all,
      gives min(3, total) blogs with distinct ids. */
  lemma TopUpLengthAndIds(f: seq<Blog>, latest: seq<Blog>, total: nat)
    requires |f| < 3 && |latest| == total - |f|
    requires DistinctIds(f) && DistinctIds(latest)
    requires forall i :: 0 <= i < |latest| ==> NotAmong(f)(latest[i])
    ensures |f + Take(latest, 3 - |f|)| == if total < 3 then total else 3
    ensures DistinctIds(f + Take(latest, 3 - |f|))
  {
    TopUpIds(f, latest, 3 - |f|);
  }

  /** Appending blogs whose ids the first part does not have keeps ids distinct. */
  lemma TopUpIds(f: seq<Blog>, latest: seq<Blog>, n: nat)
    requires DistinctIds(f) && DistinctIds(latest)
    requires forall i :: 0 <= i < |latest| ==> NotAmong(f)(latest[i])
    ensures DistinctIds(f + Take(latest, n))
  {
    var tail := Take(latest, n);
    PrefixDistinctIds(latest, |tail|);
    var r := f + tail;
    forall i, j | 0 <= i < j < |r| ensures r[i].id != r[j].id {
      if j < |f| {
        assert r[i] == f[i] && r[j] == f[j];
      } else if i >= |f| {
        assert r[i] == tail[i - |f|] && r[j] == tail[j - |f|];
      } else {
        assert r[j] == latest[j - |f|];
        assert NotAmong(f)(r[j]);
        assert r[i] == f[i];
      }
    }
  }

  /** With distinct ids, the selection has min(3, |blogs|) blogs and no id twice. */
  lemma FeaturedLengthAndIds(blogs: seq<Blog>)
    requires DistinctIds(blogs)
    ensures |FeaturedBlogs(blogs)| == if |blogs| < 3 then |blogs| else 3
    ensures DistinctIds(FeaturedBlogs(blogs))
  {
    var f := FeaturedOf(blogs);
    FilterDistinctIds(blogs, IsFeatured());
    if |f| >= 3 {
      PrefixDistinctIds(f, 3);
    } else {
      var latest := Latest(blogs, f);
      LatestCount(blogs);
      FeaturedBlogsShape(blogs);
      assert forall i :: 0 <= i < |latest| ==> NotAmong(f)(latest[i]);
      TopUpLengthAndIds(f, latest, |blogs|);
    }
  }

  // ---- bookmarks ----

  function OtherThan(id: string): string -> bool
  {
    (x: string) => x != id
  }

  /** `handleBookmark(id)`: drops the id if bookmarked, otherwise appends it. */
  function ToggleBookmark(prev: seq<string>, id: string): (r: seq<string>)
    ensures id in r <==> id !in prev
    ensures forall i :: 0 <= i < |prev| && prev[i] != id ==> prev[i] in r
    ensures forall i :: 0 <= i < |r| && r[i] != id ==> r[i] in prev
    ensures id !in prev ==> r == prev + [id]
    ensures id in prev ==> IsSubsequence(r, prev)
    ensures id in prev ==> forall x :: multiset(r)[x] == if x == id then 0 else multiset(prev)[x]
  {
    if id in prev then
      FilterIsSubsequence(prev, OtherThan(id));
      FilterCounts(prev, OtherThan(id));
      Filter(prev, OtherThan(id))
    else prev + [id]
  }

  /** Toggling keeps a duplicate-free list duplicate-free. */
  lemma ToggleKeepsNoDup(prev: seq<string>, id: string)
    requires NoDup(prev)
    ensures NoDup(ToggleBookmark(prev, id))
  {
    if id in prev {
      FilterNoDup(prev, OtherThan(id));
    } else {
      var r := prev + [id];
      forall i, j | 0 <= i < j < |r| ensures r[i] != r[j] {
        if j == |prev| {
          assert r[i] == prev[i];
        } else {
          assert r[i] == prev[i] && r[j] == prev[j];
        }
      }
    }
  }

  /** Bookmarking and un-bookmarking a post gives back the very same list. */
  lemma ToggleTwiceWhenAbsent(prev: seq<string>, id: string)
    requires id !in prev
    ensures ToggleBookmark(ToggleBookmark(prev, id), id) == prev
  {
    FilterConcat(prev, [id], OtherThan(id));
    FilterAll(prev, OtherThan(id));
    assert Filter([id], OtherThan(id)) == [] + Filter([id][1..], OtherThan(id));
  }

  /** Un-bookmarking and bookmarking again gives back a duplicate-free list with the same
      posts (the toggled one moves to the end). */
  lemma ToggleTwiceWhenPresent(prev: seq<string>, id: string)
    requires NoDup(prev) && id in prev
    ensures var r := ToggleBookmark(ToggleBookmark(prev, id), id);
      NoDup(r) && (forall i :: 0 <= i < |r| ==> r[i] in prev) && (forall i :: 0 <= i < |prev| ==> prev[i] in r)
  {
    var once := ToggleBookmark(prev, id);
    ToggleKeepsNoDup(prev, id);
    ToggleKeepsNoDup(once, id);
  }
}
