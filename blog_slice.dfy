/** The client's Redux `blog` slice: the list of blogs, the loading and error flags and the
    blog being viewed, with the case reducers that the slice's actions and async thunks run. */
module BlogSlice {
  import opened Wrappers
  import opened Seqs
  import opened BlogTypes

  /** `blogs.findIndex(b => b._id === id)`: the first index holding that id, or -1. */
  function FindIndex(s: seq<Blog>, id: string): (r: int)
    ensures -1 <= r < |s|
    ensures r == -1 <==> !HasId(s, id)
    ensures r >= 0 ==> s[r].id == id && forall i :: 0 <= i < r ==> s[i].id != id
    decreases |s|
  {
    if s == [] then -1
    else if s[0].id == id then 0
    else
      var k := FindIndex(s[1..], id);
      assert HasId(s, id) ==> HasId(s[1..], id) by {
        if HasId(s, id) {
          var i :| 0 <= i < |s| && s[i].id == id;
          assert s[1..][i - 1] == s[i];
        }
      }
      assert k >= 0 ==> s[k + 1] == s[1..][k];
      if k == -1 then -1 else k + 1
  }

  /** `blogs.find(b => b._id === id)`: the first blog with that id, if any. */
  function FindById(s: seq<Blog>, id: string): (r: Option<Blog>)
    ensures r.None? <==> !HasId(s, id)
    ensures r.Some? ==> exists k :: 0 <= k < |s| && s[k] == r.value && r.value.id == id &&
                                    forall i :: 0 <= i < k ==> s[i].id != id
  {
    var k := FindIndex(s, id);
    if k == -1 then None else Some(s[k])
  }

  /** `blogs.map(b => b._id === p._id ? p : b)`: every blog with p's id becomes p. */
  function ReplaceById(s: seq<Blog>, p: Blog): (r: seq<Blog>)
    ensures |r| == |s|
    ensures forall i :: 0 <= i < |s| ==> r[i] == if s[i].id == p.id then p else s[i]
    decreases |s|
  {
    if s == [] then [] else [if s[0].id == p.id then p else s[0]] + ReplaceById(s[1..], p)
  }

  /** The filter predicate `b => b._id !== id`. */
  function OtherThan(id: string): Blog -> bool
  {
    (b: Blog) => b.id != id
  }

  /** `blogs.filter(b => b._id !== id)`. */
  function RemoveById(s: seq<Blog>, id: string): (r: seq<Blog>)
    ensures !HasId(r, id)
    ensures forall i :: 0 <= i < |s| && s[i].id != id ==> s[i] in r
    ensures IsSubsequence(r, s)
    ensures forall b :: multiset(r)[b] == if b.id == id then 0 else multiset(s)[b]
  {
    FilterIsSubsequence(s, OtherThan(id));
    FilterCounts(s, OtherThan(id));
    Filter(s, OtherThan(id))
  }

  /** The `fetchBlogById.fulfilled` update of the list: the first blog with p's id is
      replaced by p, or p is appended when there is none. */
  function Upsert(s: seq<Blog>, p: Blog): (r: seq<Blog>)
    ensures p in r
    ensures HasId(s, p.id) ==> (|r| == |s| &&
      exists k :: 0 <= k < |s| && s[k].id == p.id && r[k] == p &&
        (forall i :: 0 <= i < k ==> s[i].id != p.id) &&
        (forall i :: 0 <= i < |s| && i != k ==> r[i] == s[i]))
    ensures !HasId(s, p.id) ==> r == s + [p]
  {
    var k := FindIndex(s, p.id);
    if k == -1 then s + [p] else assert s[k := p][k] == p; s[k := p]
  }

  /** With no blog carrying p's id, replacing by id leaves the list as it is. */
  lemma ReplaceByIdWithoutMatch(s: seq<Blog>, p: Blog)
    requires !HasId(s, p.id)
    ensures ReplaceById(s, p) == s
  {
    var r := ReplaceById(s, p);
    forall i | 0 <= i < |s| ensures r[i] == s[i] {
      assert s[i].id != p.id;
    }
  }

  /** Removing an id a second time changes nothing. */
  lemma RemoveByIdIdempotent(s: seq<Blog>, id: string)
    ensures RemoveById(RemoveById(s, id), id) == RemoveById(s, id)
  {
    FilterIdempotent(s, OtherThan(id));
  }

  /** Removing an id that is absent changes nothing. */
  lemma RemoveByIdWithoutMatch(s: seq<Blog>, id: string)
    requires !HasId(s, id)
    ensures RemoveById(s, id) == s
  {
    FilterAll(s, OtherThan(id));
  }

  /** What `fetchBlogById` serves from the cache, fed back through `fulfilled`, leaves the list as it was. */
  lemma UpsertOfCachedBlog(s: seq<Blog>, id: string)
    requires FindById(s, id).Some?
    ensures Upsert(s, FindById(s, id).value) == s
  {
    var k := FindIndex(s, id);
    assert s[k := s[k]] == s;
  }

  /** When ids are distinct and p's id is present, the upsert of `fetchBlogById.fulfilled`
      and the replacement of `updateBlog.fulfilled` agree. */
  lemma UpsertIsReplaceWhenDistinct(s: seq<Blog>, p: Blog)
    requires DistinctIds(s) && HasId(s, p.id)
    ensures Upsert(s, p) == ReplaceById(s, p)
  {
    var k := FindIndex(s, p.id);
    var u, r := Upsert(s, p), ReplaceById(s, p);
    forall i | 0 <= i < |s| ensures u[i] == r[i] {
      if i != k {
        assert s[i].id != p.id;
      }
    }
  }

  /** The upsert keeps the ids of a list distinct. */
  lemma UpsertKeepsDistinctIds(s: seq<Blog>, p: Blog)
    requires DistinctIds(s)
    ensures DistinctIds(Upsert(s, p))
  {
    var k := FindIndex(s, p.id);
    var r := Upsert(s, p);
    if k == -1 {
      forall i, j | 0 <= i < j < |r| ensures r[i].id != r[j].id {
        if j == |s| {
          assert r[i] == s[i];
        }
      }
    }
  }

  /** The async thunks of the slice, for their shared `pending` and `rejected` cases. */
  datatype Thunk = FetchBlogs | FetchBlogById | CreateBlog | UpdateBlog | DeleteBlog

  /** The slice's state. */
  class BlogState {
    var blogs: seq<Blog>
    var loading: bool
    var error: Option<string>
    var currentBlog: Option<Blog>

    /** `initialState`. */
    constructor ()
      ensures blogs == [] && !loading && error == None && currentBlog == None
    {
      blogs, loading, error, currentBlog := [], false, None, None;
    }

    method SetCurrentBlog(b: Option<Blog>)
      modifies this
      ensures currentBlog == b
      ensures blogs == old(blogs) && loading == old(loading) && error == old(error)
    {
      currentBlog := b;
    }

    method ClearError()
      modifies this
      ensures error == None
      ensures blogs == old(blogs) && loading == old(loading) && currentBlog == old(currentBlog)
    {
      error := None;
    }

    method AddBlogOptimistic(b: Blog)
      modifies this
      ensures blogs == old(blogs) + [b]
      ensures loading == old(loading) && error == old(error) && currentBlog == old(currentBlog)
    {
      blogs := blogs + [b];
    }

    method UpdateBlogOptimistic(b: Blog)
      modifies this
      ensures blogs == ReplaceById(old(blogs), b)
      ensures loading == old(loading) && error == old(error) && currentBlog == old(currentBlog)
    {
      blogs := ReplaceById(blogs, b);
    }

    method RemoveBlogOptimistic(id: string)
      modifies this
      ensures blogs == RemoveById(old(blogs), id)
      ensures loading == old(loading) && error == old(error) && currentBlog == old(currentBlog)
    {
      blogs := RemoveById(blogs, id);
    }

    /** The `pending` case, the same for every thunk. */
    method Pending(t: Thunk)
      modifies this
      ensures loading && error == None
      ensures blogs == old(blogs) && currentBlog == old(currentBlog)
    {
      loading := true;
      error := None;
    }

    /** The `rejected` case: the payload is the thunk's error message; only
        `fetchBlogById` also forgets the current blog. */
    method Rejected(t: Thunk, payload: string)
      modifies this
      ensures !loading && error == Some(payload)
      ensures blogs == old(blogs)
      ensures currentBlog == if t == FetchBlogById then None else old(currentBlog)
    {
      loading := false;
      error := Some(payload);
      if t == FetchBlogById {
        currentBlog := None;
      }
    }

    method FetchBlogsFulfilled(payload: seq<Blog>)
      modifies this
      ensures !loading && blogs == payload
      ensures error == old(error) && currentBlog == old(currentBlog)
    {
      loading := false;
      blogs := payload;
    }

    method FetchBlogByIdFulfilled(payload: Blog)
      modifies this
      ensures !loading && currentBlog == Some(payload)
      ensures blogs == Upsert(old(blogs), payload)
      ensures error == old(error)
    {
      loading := false;
      currentBlog := Some(payload);
      var blogIndex := FindIndex(blogs, payload.id);
      if blogIndex != -1 {
        blogs := blogs[blogIndex := payload];
      } else {
        blogs := blogs + [payload];
      }
    }

    method CreateBlogFulfilled(payload: Blog)
      modifies this
      ensures !loading && blogs == old(blogs) + [payload] && currentBlog == None
      ensures error == old(error)
    {
      loading := false;
      blogs := blogs + [payload];
      currentBlog := None;
    }

    method UpdateBlogFulfilled(payload: Blog)
      modifies this
      ensures !loading && blogs == ReplaceById(old(blogs), payload) && currentBlog == None
      ensures error == old(error)
    {
      loading := false;
      blogs := ReplaceById(blogs, payload);
      currentBlog := None;
    }

    method DeleteBlogFulfilled(payload: string)
      modifies this
      ensures !loading && blogs == RemoveById(old(blogs), payload)
      ensures error == old(error) && currentBlog == old(currentBlog)
    {
      loading := false;
      blogs := RemoveById(blogs, payload);
    }

    /** The cache lookup at the start of the `fetchBlogById` thunk: a blog already in the
        state with the requested id is returned without calling the service. */
    method CachedBlog(blogId: string) returns (existing: Option<Blog>)
      ensures existing.Some? <==> HasId(blogs, blogId)
      ensures existing.Some? ==> existing.value.id == blogId && existing.value in blogs
      ensures existing == FindById(blogs, blogId)
    {
      existing := FindById(blogs, blogId);
    }

    /** Dispatching `fetchBlogById(blogId)`: `pending` runs, then the cache is consulted; on a
        hit `fulfilled` runs with the cached blog and the list stays as it was, on a miss the
        thunk goes on to the service (not modelled) and the state is the pending one. */
    method DispatchFetchBlogById(blogId: string) returns (servedFromCache: bool)
      modifies this
      ensures servedFromCache <==> HasId(old(blogs), blogId)
      ensures blogs == old(blogs)
      ensures servedFromCache ==> !loading && error == None && currentBlog == FindById(old(blogs), blogId)
      ensures !servedFromCache ==> loading && error == None && currentBlog == old(currentBlog)
    {
      Pending(FetchBlogById);
      var existing := CachedBlog(blogId);
      servedFromCache := existing.Some?;
      if existing.Some? {
        UpsertOfCachedBlog(blogs, blogId);
        FetchBlogByIdFulfilled(existing.value);
      }
    }
  }
}
