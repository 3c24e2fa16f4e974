/** The admin dashboard page: the search over the store's blogs, and the page state that
    decides whether the form is open, which blog it edits, and which thunks are dispatched. */
module AdminDashboard {
  import opened Wrappers
  import opened Seqs
  import opened Strings
  import opened BlogTypes
  import opened BlogSchema
  import opened BlogFormComponent

  // ---- search ----

  /** `s.toLowerCase().includes(term.toLowerCase())`. */
  predicate MatchesText(s: string, term: string)
  {
    Contains(Lower(s), Lower(term))
  }

  /** The search test: the title, the author or one of the tags contains the term,
      ignoring case. */
  predicate Matches(b: Blog, term: string)
  {
    MatchesText(b.title, term) || MatchesText(b.author, term) ||
    exists i :: 0 <= i < |b.tags| && MatchesText(b.tags[i], term)
  }

  function MatchesTerm(term: string): Blog -> bool
  {
    (b: Blog) => Matches(b, term)
  }

  /** `filteredBlogs`: the blogs that match, in store order. */
  function FilterBlogs(blogs: seq<Blog>, term: string): (r: seq<Blog>)
    ensures forall i :: 0 <= i < |r| ==> r[i] in blogs && Matches(r[i], term)
    ensures forall i :: 0 <= i < |blogs| && Matches(blogs[i], term) ==> blogs[i] in r
    ensures IsSubsequence(r, blogs)
    ensures forall b :: multiset(r)[b] == if Matches(b, term) then multiset(blogs)[b] else 0
  {
    FilterIsSubsequence(blogs, MatchesTerm(term));
    FilterCounts(blogs, MatchesTerm(term));
    Filter(blogs, MatchesTerm(term))
  }

  /** An empty search lists every blog. */
  lemma EmptyTermKeepsAll(blogs: seq<Blog>)
    ensures FilterBlogs(blogs, "") == blogs
  {
    forall i | 0 <= i < |blogs| ensures MatchesTerm("")(blogs[i]) {
      assert Lower("") == "";
      assert MatchesText(blogs[i].title, "");
    }
    FilterAll(blogs, MatchesTerm(""));
  }

  /** Lower-casing twice is lower-casing once. */
  lemma LowerIdempotent(s: string)
    ensures Lower(Lower(s)) == Lower(s)
  {
  }

  /** The search ignores the case of the term. */
  lemma SearchIgnoresCase(blogs: seq<Blog>, term: string)
    ensures FilterBlogs(blogs, Lower(term)) == FilterBlogs(blogs, term)
  {
    LowerIdempotent(term);
    forall i | 0 <= i < |blogs| ensures MatchesTerm(Lower(term))(blogs[i]) == MatchesTerm(term)(blogs[i]) {
      var b := blogs[i];
      assert MatchesText(b.title, Lower(term)) == MatchesText(b.title, term);
    }
    FilterExt(blogs, MatchesTerm(Lower(term)), MatchesTerm(term));
  }

  /** `includes` is transitive: t in u and u in s give t in s. */
  lemma ContainsTransitive(s: string, u: string, t: string)
    requires Contains(s, u) && Contains(u, t)
    ensures Contains(s, t)
  {
    var i :| OccursAt(s, u, i);
    var j :| OccursAt(u, t, j);
    var inS := s[i + j..i + j + |t|];
    var inU := u[j..j + |t|];
    assert inS == inU by {
      forall k | 0 <= k < |t| ensures inS[k] == inU[k] {
        assert s[i..i + |u|][j + k] == u[j + k];
      }
    }
    assert OccursAt(s, t, i + j);
  }

  /** One text that matches a longer term matches every part of it. */
  lemma MatchesTextNarrowing(s: string, longer: string, shorter: string)
    requires Contains(Lower(longer), Lower(shorter))
    requires MatchesText(s, longer)
    ensures MatchesText(s, shorter)
  {
    ContainsTransitive(Lower(s), Lower(longer), Lower(shorter));
  }

  /** Typing more of a search term never brings back a blog the shorter term hid: every
      blog the longer term finds, the shorter one finds too. */
  lemma RefiningNarrows(blogs: seq<Blog>, longer: string, shorter: string)
    requires Contains(Lower(longer), Lower(shorter))
    ensures forall i :: 0 <= i < |FilterBlogs(blogs, longer)| ==>
      FilterBlogs(blogs, longer)[i] in FilterBlogs(blogs, shorter)
  {
    var r := FilterBlogs(blogs, longer);
    forall i | 0 <= i < |r| ensures r[i] in FilterBlogs(blogs, shorter) {
      var b := r[i];
      if MatchesText(b.title, longer) {
        MatchesTextNarrowing(b.title, longer, shorter);
      } else if MatchesText(b.author, longer) {
        MatchesTextNarrowing(b.author, longer, shorter);
      } else {
        var k :| 0 <= k < |b.tags| && MatchesText(b.tags[k], longer);
        MatchesTextNarrowing(b.tags[k], longer, shorter);
      }
      assert Matches(b, shorter);
      var j :| 0 <= j < |blogs| && blogs[j] == b;
    }
  }

  // ---- the page state ----

  /** The thunks the page dispatches to the blog store. */
  datatype Action = FetchAll | Create(values: BlogFormValues) | Update(values: BlogFormValues) | Delete(id: string)

  /** `values._id` is truthy: present and not empty. */
  predicate HasId(values: BlogFormValues)
  {
    values.id.Some? && values.id.value != ""
  }

  /** What `handleSubmit` dispatches: an update when a blog is being edited and the values
      carry its id, nothing when they carry none, and a create otherwise. */
  function SubmitAction(editing: Option<Blog>, values: BlogFormValues): (r: Option<Action>)
    ensures r.Some? && r.value.Create? <==> editing.None?
    ensures r.Some? && r.value.Update? <==> editing.Some? && HasId(values)
    ensures r.None? <==> editing.Some? && !HasId(values)
    ensures r.Some? ==> (r.value.Create? || r.value.Update?) && r.value.values == values
  {
    if editing.Some? then
      (if HasId(values) then Some(Update(values)) else None)
    else Some(Create(values))
  }

  /** The form opened by `handleEdit` starts from the edited blog and renders no `_id`
      field, so what it submits keeps the blog's id: submitting it updates that blog, as
      long as the stored id is not empty. */
  lemma EditedFormSubmitsUpdate(b: Blog, values: BlogFormValues)
    requires values.id == FromBlog(b).id && b.id != ""
    ensures SubmitAction(Some(b), values) == Some(Update(values))
  {
  }

  /** The dispatched actions that follow one more submission. */
  function AfterSubmit(dispatched: seq<Action>, editing: Option<Blog>, values: BlogFormValues): (r: seq<Action>)
    ensures |dispatched| <= |r| <= |dispatched| + 1
    ensures r[..|dispatched|] == dispatched
  {
    var a := SubmitAction(editing, values);
    if a.Some? then dispatched + [a.value] else dispatched
  }

  class Dashboard {
    /** The form is open. */
    var isCreating: bool
    /** The blog the form edits; None for a new blog. */
    var editingBlog: Option<Blog>
    var searchTerm: string
    /** Every thunk dispatched so far, in order. */
    var dispatched: seq<Action>

    /** A blog is only being edited while the form is open. */
    predicate Valid()
      reads this
    {
      editingBlog.Some? ==> isCreating
    }

    /** The page as first rendered: form closed, empty search, and the mount effect has
        dispatched `fetchBlogs`. */
    constructor ()
      ensures Valid()
      ensures !isCreating && editingBlog.None? && searchTerm == "" && dispatched == [FetchAll]
    {
      isCreating := false;
      editingBlog := None;
      searchTerm := "";
      dispatched := [FetchAll];
    }

    /** `handleCreate`: opens an empty form. */
    method HandleCreate()
      modifies this
      ensures Valid()
      ensures isCreating && editingBlog.None?
      ensures searchTerm == old(searchTerm) && dispatched == old(dispatched)
    {
      editingBlog := None;
      isCreating := true;
    }

    /** `handleEdit`: opens the form on a blog. */
    method HandleEdit(b: Blog)
      modifies this
      ensures Valid()
      ensures isCreating && editingBlog == Some(b)
      ensures searchTerm == old(searchTerm) && dispatched == old(dispatched)
    {
      editingBlog := Some(b);
      isCreating := true;
    }

    /** `handleDelete`: dispatches `deleteBlog(id)` at once; the table has already asked
        for confirmation. */
    method HandleDelete(id: string)
      requires Valid()
      modifies this
      ensures Valid()
      ensures dispatched == old(dispatched) + [Delete(id)]
      ensures isCreating == old(isCreating) && editingBlog == old(editingBlog) && searchTerm == old(searchTerm)
    {
      dispatched := dispatched + [Delete(id)];
    }

    /** `handleSubmit`: dispatches what `SubmitAction` says and closes the form, whether or
        not anything was dispatched. */
    method HandleSubmit(values: BlogFormValues)
      modifies this
      ensures Valid()
      ensures dispatched == AfterSubmit(old(dispatched), old(editingBlog), values)
      ensures !isCreating && editingBlog.None? && searchTerm == old(searchTerm)
    {
      if editingBlog.Some? {
        if values.id.Some? && values.id.value != "" {
          dispatched := dispatched + [Update(values)];
        }
      } else {
        dispatched := dispatched + [Create(values)];
      }
      isCreating := false;
      editingBlog := None;
    }

    /** `handleCancel`: closes the form without dispatching. */
    method HandleCancel()
      modifies this
      ensures Valid()
      ensures !isCreating && editingBlog.None?
      ensures searchTerm == old(searchTerm) && dispatched == old(dispatched)
    {
      isCreating := false;
      editingBlog := None;
    }

    /** The search box's `onChange`. */
    method SetSearchTerm(t: string)
      requires Valid()
      modifies this
      ensures Valid()
      ensures searchTerm == t
      ensures isCreating == old(isCreating) && editingBlog == old(editingBlog) && dispatched == old(dispatched)
    {
      searchTerm := t;
    }
  }
}
