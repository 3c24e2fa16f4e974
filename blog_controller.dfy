/** The admin blog controller: create, list, get, update and delete over the blog
    collection, held as a map from `_id` to stored document. Each handler runs its
    checks before it writes, so a failing handler leaves the collection as it was.
    Request bodies reaching create and update have already been parsed by
    `blogFormSchema`, so they are `BlogFormValues`; the requesting user is present
    because those routes require an authenticated admin. */
module BlogController {
  import opened Wrappers
  import opened Strings
  import opened BlogModel
  import opened BlogSchema

  /** The errors the handlers throw. A duplicate `_id` is the store's own refusal. */
  datatype ApiError =
    | Conflict(message: string, field: string, value: string)
    | NotFound(message: string)
    | Validation(paths: seq<string>)
    | DuplicateKey(id: string)

  /** A stored blog as returned by get, list and update: the document and its `_id` as a string. */
  datatype BlogView = BlogView(id: string, doc: BlogDoc)

  /** What create returns: the blog's own fields, without the audit fields. */
  datatype CreatedBlog = CreatedBlog(
    id: string,
    title: string,
    content: string,
    author: string,
    authorAvatar: Option<string>,
    createdAt: string,
    readTime: string,
    tags: seq<string>,
    featured: bool,
    likes: int,
    bookmarks: int)

  /** What delete returns. */
  datatype DeleteConfirmation = DeleteConfirmation(success: bool, message: string, deletedId: string)

  const BlogNotFound := "Blog not found"
  const TitleExists := "Blog with this title already exists"
  const AnotherTitleExists := "Another blog with this title already exists"
  const Deleted := "Blog deleted successfully"

  /** `Blog.findOne({ title })` finds a document: the filter is trimmed like the path. */
  predicate TitleTaken(docs: map<string, BlogDoc>, title: string)
  {
    exists k :: k in docs && docs[k].title == title
  }

  /** `Blog.findOne({ title, _id: { $ne: id } })` finds a document. */
  predicate TitleTakenByOther(docs: map<string, BlogDoc>, title: string, id: string)
  {
    exists k :: k in docs && k != id && docs[k].title == title
  }

  /** No two blogs share a non-empty title. (An empty title can only come from an update
      whose title is empty, which skips the uniqueness check.) */
  ghost predicate TitlesUnique(docs: map<string, BlogDoc>)
  {
    forall a, b :: a in docs && b in docs && docs[a].title != "" && docs[a].title == docs[b].title ==> a == b
  }

  /** Neither starts nor ends with white space, which is what trimming leaves. */
  predicate IsTrimmed(t: string)
  {
    t == [] || (!IsWhitespace(t[0]) && !IsWhitespace(t[|t| - 1]))
  }

  /** Every stored title is trimmed. */
  ghost predicate TitlesTrimmed(docs: map<string, BlogDoc>)
  {
    forall k :: k in docs ==> IsTrimmed(docs[k].title)
  }

  ghost predicate ValidDocs(docs: map<string, BlogDoc>)
  {
    TitlesUnique(docs) && TitlesTrimmed(docs)
  }

  /** `new Blog({ ...body, createdBy: user })`: what the document is built from. */
  function ToInput(body: BlogFormValues, user: string): BlogInput
  {
    BlogInput(Some(body.title), Some(body.content), Some(body.author), body.authorAvatar,
      Some(body.createdAt), Some(body.readTime), Some(body.tags), Some(body.featured),
      Some(body.likes), Some(body.bookmarks), Some(user))
  }

  /** The `_id` a created blog gets: the body's own, else a freshly generated one. */
  function NewId(body: BlogFormValues, generatedId: string): string
  {
    if body.id.Some? then body.id.value else generatedId
  }

  function Summary(id: string, d: BlogDoc): CreatedBlog
  {
    CreatedBlog(id, d.title, d.content, d.author, d.authorAvatar, d.createdAt, d.readTime,
      d.tags, d.featured, d.likes, d.bookmarks)
  }

  /** The outcome of `createBlog`: the title check first, then the document's validation,
      then the insert, which refuses an `_id` already in use. */
  function CreateResult(docs: map<string, BlogDoc>, body: BlogFormValues, user: string, generatedId: string)
    : (r: Result<Reply<CreatedBlog>, ApiError>)
    ensures r.Err? && r.error.Conflict? <==> TitleTaken(docs, Trim(body.title))
    ensures r.Err? && r.error.Conflict? ==> r.error == Conflict(TitleExists, "title", body.title)
    ensures r.Err? && r.error.Validation? <==>
      !TitleTaken(docs, Trim(body.title)) && NewBlog(ToInput(body, user)).Err?
    ensures r.Err? && r.error.DuplicateKey? <==>
      !TitleTaken(docs, Trim(body.title)) && NewBlog(ToInput(body, user)).Ok? &&
      NewId(body, generatedId) in docs
    ensures r.Ok? <==>
      !TitleTaken(docs, Trim(body.title)) && NewBlog(ToInput(body, user)).Ok? &&
      NewId(body, generatedId) !in docs
    ensures r.Ok? ==>
      var d := NewBlog(ToInput(body, user)).value;
      r.value.status == 201 && NewId(body, generatedId) !in docs &&
      r.value.body == Summary(NewId(body, generatedId), d) &&
      d.title == Trim(body.title) && d.title != "" && !TitleTaken(docs, d.title) &&
      d.createdBy == Some(user) && d.updatedBy.None?
  {
    if TitleTaken(docs, Trim(body.title)) then Err(Conflict(TitleExists, "title", body.title))
    else
      var built := NewBlog(ToInput(body, user));
      if built.Err? then Err(Validation(built.error))
      else if NewId(body, generatedId) in docs then Err(DuplicateKey(NewId(body, generatedId)))
      else Ok(Reply(201, Summary(NewId(body, generatedId), built.value)))
  }

  /** The document update writes: the body's fields over the stored ones (the title
      trimmed), `authorAvatar` only when the body has one, `updatedBy` set to the user, and
      `createdBy` and `createdAt` kept: with `timestamps` on, `createdAt` is immutable and
      an update leaves it out. */
  function Updated(current: BlogDoc, body: BlogFormValues, user: string): (r: BlogDoc)
    ensures r.title == Trim(body.title)
    ensures r.content == body.content && r.author == body.author && r.readTime == body.readTime &&
      r.tags == body.tags && r.featured == body.featured && r.likes == body.likes &&
      r.bookmarks == body.bookmarks
    ensures r.authorAvatar == if body.authorAvatar.Some? then body.authorAvatar else current.authorAvatar
    ensures r.createdAt == current.createdAt && r.createdBy == current.createdBy
    ensures r.updatedBy == Some(user)
  {
    current.(
      title := Trim(body.title),
      content := body.content,
      author := body.author,
      authorAvatar := if body.authorAvatar.Some? then body.authorAvatar else current.authorAvatar,
      createdAt := current.createdAt,
      readTime := body.readTime,
      tags := body.tags,
      featured := body.featured,
      likes := body.likes,
      bookmarks := body.bookmarks,
      updatedBy := Some(user))
  }

  /** The outcome of `updateBlog`: not found, then the uniqueness check, which runs only
      when the title is non-empty and differs from the stored one. */
  function UpdateResult(docs: map<string, BlogDoc>, id: string, body: BlogFormValues, user: string)
    : (r: Result<Reply<BlogView>, ApiError>)
    ensures id !in docs <==> r == Err(NotFound(BlogNotFound))
    ensures r.Err? && r.error.Conflict? <==>
      id in docs && body.title != "" && body.title != docs[id].title &&
      TitleTakenByOther(docs, Trim(body.title), id)
    ensures r.Err? && r.error.Conflict? ==> r.error == Conflict(AnotherTitleExists, "title", body.title)
    ensures r.Err? ==> r.error.NotFound? || r.error.Conflict?
    ensures r.Ok? <==>
      id in docs && !(body.title != "" && body.title != docs[id].title &&
                      TitleTakenByOther(docs, Trim(body.title), id))
    ensures r.Ok? ==>
      r.value.status == 200 && r.value.body.id == id &&
      r.value.body.doc == Updated(docs[id], body, user) &&
      r.value.body.doc.title == Trim(body.title) &&
      r.value.body.doc.updatedBy == Some(user) && r.value.body.doc.createdBy == docs[id].createdBy &&
      r.value.body.doc.createdAt == docs[id].createdAt && r.value.body.doc.content == body.content
  {
    if id !in docs then Err(NotFound(BlogNotFound))
    else if body.title != "" && body.title != docs[id].title && TitleTakenByOther(docs, Trim(body.title), id) then
      Err(Conflict(AnotherTitleExists, "title", body.title))
    else Ok(Reply(200, BlogView(id, Updated(docs[id], body, user))))
  }

  /** The outcome of `deleteBlog`. */
  function DeleteResult(docs: map<string, BlogDoc>, id: string): (r: Result<Reply<DeleteConfirmation>, ApiError>)
    ensures r.Err? <==> id !in docs
    ensures r.Err? ==> r.error == NotFound(BlogNotFound)
    ensures r.Ok? ==> r.value == Reply(200, DeleteConfirmation(true, Deleted, id))
  {
    if id in docs then Ok(Reply(200, DeleteConfirmation(true, Deleted, id)))
    else Err(NotFound(BlogNotFound))
  }

  /** Writing a document under id keeps the titles valid when its title is trimmed and,
      if non-empty, no other blog has it. */
  lemma WriteKeepsValid(docs: map<string, BlogDoc>, id: string, d: BlogDoc)
    requires ValidDocs(docs)
    requires IsTrimmed(d.title)
    requires d.title != "" ==> !TitleTakenByOther(docs, d.title, id)
    ensures ValidDocs(docs[id := d])
  {
    var docs' := docs[id := d];
    forall a, b | a in docs' && b in docs' && a != b && docs'[a].title != ""
      ensures docs'[a].title != docs'[b].title
    {
      if a == id {
        assert docs'[b] == docs[b];
      } else if b == id {
        assert docs'[a] == docs[a];
      }
    }
  }

  /** A successful create keeps titles unique and trimmed. */
  lemma CreatePreservesValid(docs: map<string, BlogDoc>, body: BlogFormValues, user: string, generatedId: string)
    requires ValidDocs(docs)
    requires !TitleTaken(docs, Trim(body.title)) && NewBlog(ToInput(body, user)).Ok?
    ensures ValidDocs(docs[NewId(body, generatedId) := NewBlog(ToInput(body, user)).value])
  {
    var d := NewBlog(ToInput(body, user)).value;
    assert d.title == Trim(body.title);
    WriteKeepsValid(docs, NewId(body, generatedId), d);
  }

  /** A blog's own non-empty title is held by no other blog. */
  lemma OwnTitleNotTaken(docs: map<string, BlogDoc>, id: string)
    requires TitlesUnique(docs) && id in docs && docs[id].title != ""
    ensures !TitleTakenByOther(docs, docs[id].title, id)
  {
    forall k | k in docs && k != id ensures docs[k].title != docs[id].title {
    }
  }

  /** The title an update writes is trimmed and, when non-empty, held by no other blog:
      either it is new and was checked, or it is the blog's own stored title. */
  lemma UpdateTitleFree(docs: map<string, BlogDoc>, id: string, title: string)
    requires ValidDocs(docs) && id in docs
    requires title != "" && title != docs[id].title ==> !TitleTakenByOther(docs, Trim(title), id)
    ensures IsTrimmed(Trim(title))
    ensures Trim(title) != "" ==> !TitleTakenByOther(docs, Trim(title), id)
  {
    if title == docs[id].title {
      assert IsTrimmed(docs[id].title);
      TrimOfTrimmed(docs[id].title);
      if title != "" {
        OwnTitleNotTaken(docs, id);
      }
    }
  }

  /** Every update that succeeds, that is whenever the blog exists and a new non-empty title
      is held by no other blog, keeps non-empty titles unique and all titles trimmed. */
  lemma UpdatePreservesValid(docs: map<string, BlogDoc>, id: string, body: BlogFormValues, user: string)
    requires ValidDocs(docs) && id in docs
    requires body.title != "" && body.title != docs[id].title ==> !TitleTakenByOther(docs, Trim(body.title), id)
    ensures ValidDocs(docs[id := Updated(docs[id], body, user)])
  {
    UpdateTitleFree(docs, id, body.title);
    WriteKeepsValid(docs, id, Updated(docs[id], body, user));
  }

  /** Deleting keeps the titles valid. */
  lemma DeletePreservesValid(docs: map<string, BlogDoc>, id: string)
    requires ValidDocs(docs)
    ensures ValidDocs(docs - {id})
  {
  }

  /** Creating the same title twice: the second create is refused with a conflict,
      whatever `_id` it would get and whoever sends it. */
  lemma CreateTwiceConflicts(docs: map<string, BlogDoc>, body: BlogFormValues, user: string,
                             generatedId: string, user2: string, generatedId2: string)
    requires CreateResult(docs, body, user, generatedId).Ok?
    ensures var docs' := docs[NewId(body, generatedId) := NewBlog(ToInput(body, user)).value];
      CreateResult(docs', body, user2, generatedId2) == Err(Conflict(TitleExists, "title", body.title))
  {
    var id := NewId(body, generatedId);
    var docs' := docs[id := NewBlog(ToInput(body, user)).value];
    assert docs'[id].title == Trim(body.title);
  }

  /** Two blogs whose titles differ only in surrounding whitespace conflict too. */
  lemma PaddedTitleConflicts(docs: map<string, BlogDoc>, body: BlogFormValues, user: string, generatedId: string, k: string)
    requires k in docs && docs[k].title == Trim(body.title)
    ensures CreateResult(docs, body, user, generatedId).Err?
    ensures CreateResult(docs, body, user, generatedId).error.Conflict?
  {
  }

  // ---- newest-first listing ----

  /** The `_id`s of a listing, in order. */
  function Ids(s: seq<BlogView>): (r: seq<string>)
    ensures |r| == |s|
  {
    if s == [] then [] else [s[0].id] + Ids(s[1..])
  }

  lemma {:induction false} IdsAt(s: seq<BlogView>, i: int)
    requires 0 <= i < |s|
    ensures Ids(s)[i] == s[i].id
    decreases i
  {
    if i > 0 {
      IdsAt(s[1..], i - 1);
    }
  }

  /** `sort({ createdAt: -1 })`: no blog precedes one with a later `createdAt`. */
  ghost predicate NewestFirst(s: seq<BlogView>)
  {
    forall i, j :: 0 <= i < j < |s| ==> StrCmp(s[i].doc.createdAt, s[j].doc.createdAt) >= 0
  }

  /** Puts v before the first blog that is not newer than it. */
  function InsertNewest(v: BlogView, s: seq<BlogView>): (r: seq<BlogView>)
    ensures multiset(r) == multiset(s) + multiset{v}
  {
    if s == [] then [v]
    else if StrCmp(v.doc.createdAt, s[0].doc.createdAt) >= 0 then [v] + s
    else
      assert s == [s[0]] + s[1..];
      [s[0]] + InsertNewest(v, s[1..])
  }

  lemma IdsCons(v: BlogView, s: seq<BlogView>)
    ensures Ids([v] + s) == [v.id] + Ids(s)
  {
    assert ([v] + s)[1..] == s;
  }

  /** Inserting a blog adds its id to the listing's ids. */
  lemma {:induction false} InsertNewestIds(v: BlogView, s: seq<BlogView>)
    ensures multiset(Ids(InsertNewest(v, s))) == multiset(Ids(s)) + multiset{v.id}
    decreases |s|
  {
    if s == [] {
    } else if StrCmp(v.doc.createdAt, s[0].doc.createdAt) >= 0 {
      IdsCons(v, s);
    } else {
      var rest := InsertNewest(v, s[1..]);
      InsertNewestIds(v, s[1..]);
      IdsCons(s[0], rest);
      IdsCons(s[0], s[1..]);
      assert s == [s[0]] + s[1..];
      assert InsertNewest(v, s) == [s[0]] + rest;
      calc {
        multiset(Ids(InsertNewest(v, s)));
        multiset([s[0].id] + Ids(rest));
        multiset{s[0].id} + multiset(Ids(rest));
        multiset{s[0].id} + multiset(Ids(s[1..])) + multiset{v.id};
        multiset([s[0].id] + Ids(s[1..])) + multiset{v.id};
      }
    }
  }

  lemma NewestFirstTail(s: seq<BlogView>)
    requires s != [] && NewestFirst(s)
    ensures NewestFirst(s[1..])
  {
    forall i, j | 0 <= i < j < |s[1..]|
      ensures StrCmp(s[1..][i].doc.createdAt, s[1..][j].doc.createdAt) >= 0
    {
      assert s[1..][i] == s[i + 1] && s[1..][j] == s[j + 1];
    }
  }

  lemma NewestFirstCons(x: BlogView, s: seq<BlogView>)
    requires NewestFirst(s)
    requires forall y :: y in multiset(s) ==> StrCmp(x.doc.createdAt, y.doc.createdAt) >= 0
    ensures NewestFirst([x] + s)
  {
    var r := [x] + s;
    forall i, j | 0 <= i < j < |r| ensures StrCmp(r[i].doc.createdAt, r[j].doc.createdAt) >= 0 {
      if i == 0 {
        assert r[j] == s[j - 1];
        assert r[j] in multiset(s);
      } else {
        assert r[i] == s[i - 1] && r[j] == s[j - 1];
      }
    }
  }

  /** Inserting into a newest-first listing keeps it newest-first. */
  lemma {:induction false} InsertNewestSorted(v: BlogView, s: seq<BlogView>)
    requires NewestFirst(s)
    ensures NewestFirst(InsertNewest(v, s))
    decreases |s|
  {
    if s == [] {
    } else if StrCmp(v.doc.createdAt, s[0].doc.createdAt) >= 0 {
      forall y: BlogView | y in multiset(s) ensures StrCmp(v.doc.createdAt, y.doc.createdAt) >= 0 {
        var k :| 0 <= k < |s| && s[k] == y;
        if k > 0 {
          StrCmpAntisymmetric(v.doc.createdAt, s[0].doc.createdAt);
          StrCmpAntisymmetric(s[0].doc.createdAt, y.doc.createdAt);
          StrCmpAntisymmetric(v.doc.createdAt, y.doc.createdAt);
          StrCmpTransitive(y.doc.createdAt, s[0].doc.createdAt, v.doc.createdAt);
        }
      }
      NewestFirstCons(v, s);
    } else {
      NewestFirstTail(s);
      InsertNewestSorted(v, s[1..]);
      var rest := InsertNewest(v, s[1..]);
      StrCmpAntisymmetric(v.doc.createdAt, s[0].doc.createdAt);
      forall y: BlogView | y in multiset(rest) ensures StrCmp(s[0].doc.createdAt, y.doc.createdAt) >= 0 {
        if y != v {
          assert y in multiset(s[1..]);
          var k :| 0 <= k < |s[1..]| && s[1..][k] == y;
          assert s[k + 1] == y;
        }
      }
      NewestFirstCons(s[0], rest);
    }
  }

  /** A value at two positions of a sequence occurs at least twice in its multiset. */
  lemma OccursTwice(ids: seq<string>, i: int, j: int)
    requires 0 <= i < j < |ids| && ids[i] == ids[j]
    ensures multiset(ids)[ids[i]] >= 2
  {
    var x := ids[i];
    assert ids == ids[..j] + ids[j..];
    assert ids[..j][i] == x;
    assert ids[j..][0] == x;
    assert multiset(ids) == multiset(ids[..j]) + multiset(ids[j..]);
  }

  /** A listing whose ids are, as a multiset, a set of keys lists each key once. */
  lemma ListedOnce(s: seq<BlogView>, keys: set<string>)
    requires multiset(Ids(s)) == multiset(keys)
    ensures forall i, j :: 0 <= i < j < |s| ==> s[i].id != s[j].id
  {
    forall i, j | 0 <= i < j < |s| ensures s[i].id != s[j].id {
      if s[i].id == s[j].id {
        IdsAt(s, i);
        IdsAt(s, j);
        OccursTwice(Ids(s), i, j);
        assert false;
      }
    }
  }

  /** The listing built so far holds, newest first, the stored blogs whose keys are no
      longer remaining, each once. */
  ghost predicate ListingSoFar(docs: map<string, BlogDoc>, remaining: set<string>, out: seq<BlogView>)
  {
    multiset(Ids(out)) == multiset(docs.Keys - remaining) &&
    (forall i :: 0 <= i < |out| ==> out[i].id in docs && out[i].doc == docs[out[i].id]) &&
    NewestFirst(out)
  }

  /** Inserting the blog of a remaining key adds that key to the listed ones. */
  lemma ListingIds(docs: map<string, BlogDoc>, remaining: set<string>, out: seq<BlogView>, k: string)
    requires k in docs && k in remaining
    requires multiset(Ids(out)) == multiset(docs.Keys - remaining)
    ensures multiset(Ids(InsertNewest(BlogView(k, docs[k]), out))) == multiset(docs.Keys - (remaining - {k}))
  {
    InsertNewestIds(BlogView(k, docs[k]), out);
    KeyListed(docs.Keys, remaining, k);
  }

  /** Taking k out of the remaining keys adds it, once, to the keys done. */
  lemma KeyListed(keys: set<string>, remaining: set<string>, k: string)
    requires k in keys && k in remaining
    ensures multiset(keys - (remaining - {k})) == multiset(keys - remaining) + multiset{k}
  {
    var before := keys - remaining;
    assert keys - (remaining - {k}) == before + {k};
    forall x ensures multiset(before + {k})[x] == (multiset(before) + multiset{k})[x] {
      if x == k {
        assert x !in before;
      }
    }
    assert multiset(before + {k}) == multiset(before) + multiset{k};
  }

  /** Inserting a stored blog keeps every listed blog equal to its stored document. */
  lemma ListingDocs(docs: map<string, BlogDoc>, out: seq<BlogView>, k: string)
    requires k in docs
    requires forall i :: 0 <= i < |out| ==> out[i].id in docs && out[i].doc == docs[out[i].id]
    ensures var out' := InsertNewest(BlogView(k, docs[k]), out);
      forall i :: 0 <= i < |out'| ==> out'[i].id in docs && out'[i].doc == docs[out'[i].id]
  {
    var v := BlogView(k, docs[k]);
    var out' := InsertNewest(v, out);
    forall i | 0 <= i < |out'| ensures out'[i].id in docs && out'[i].doc == docs[out'[i].id] {
      assert out'[i] in multiset(out');
      if out'[i] != v {
        assert out'[i] in multiset(out);
        var j :| 0 <= j < |out| && out[j] == out'[i];
      }
    }
  }

  /** Inserting the blog of one remaining key extends the listing. */
  lemma ListingStep(docs: map<string, BlogDoc>, remaining: set<string>, out: seq<BlogView>, k: string)
    requires remaining <= docs.Keys && k in remaining
    requires ListingSoFar(docs, remaining, out)
    ensures ListingSoFar(docs, remaining - {k}, InsertNewest(BlogView(k, docs[k]), out))
  {
    InsertNewestSorted(BlogView(k, docs[k]), out);
    ListingIds(docs, remaining, out, k);
    ListingDocs(docs, out, k);
  }

  /** The blog collection. */
  class BlogCollection {
    var docs: map<string, BlogDoc>

    ghost predicate Valid()
      reads this
    {
      ValidDocs(docs)
    }

    /** An empty collection. */
    constructor ()
      ensures docs == map[] && Valid()
    {
      docs := map[];
    }

    /** `createBlog`: on success stores the new document under its `_id` and answers 201;
        on any error stores nothing. */
    method CreateBlog(body: BlogFormValues, user: string, generatedId: string)
      returns (r: Result<Reply<CreatedBlog>, ApiError>)
      requires Valid()
      modifies this
      ensures Valid()
      ensures r == CreateResult(old(docs), body, user, generatedId)
      ensures r.Ok? ==> docs == old(docs)[NewId(body, generatedId) := NewBlog(ToInput(body, user)).value]
      ensures r.Err? ==> docs == old(docs)
    {
      var title := Trim(body.title);
      if exists k :: k in docs && docs[k].title == title {
        assert TitleTaken(docs, title);
        return Err(Conflict(TitleExists, "title", body.title));
      }
      assert !TitleTaken(docs, title);
      var built := NewBlog(ToInput(body, user));
      if built.Err? {
        return Err(Validation(built.error));
      }
      var id := if body.id.Some? then body.id.value else generatedId;
      assert id == NewId(body, generatedId);
      if id in docs {
        return Err(DuplicateKey(id));
      }
      CreatePreservesValid(docs, body, user, generatedId);
      docs := docs[id := built.value];
      r := Ok(Reply(201, Summary(id, built.value)));
    }

    /** `getAllBlogs`: every stored blog exactly once, with its stored document,
        newest `createdAt` first. */
    method GetAllBlogs() returns (r: Reply<seq<BlogView>>)
      ensures r.status == 200
      ensures multiset(Ids(r.body)) == multiset(docs.Keys)
      ensures forall i :: 0 <= i < |r.body| ==> r.body[i].id in docs && r.body[i].doc == docs[r.body[i].id]
      ensures forall i, j :: 0 <= i < j < |r.body| ==> r.body[i].id != r.body[j].id
      ensures NewestFirst(r.body)
    {
      var remaining := docs.Keys;
      var out: seq<BlogView> := [];
      while remaining != {}
        invariant remaining <= docs.Keys
        invariant ListingSoFar(docs, remaining, out)
        decreases |remaining|
      {
        var k :| k in remaining;
        ListingStep(docs, remaining, out, k);
        out := InsertNewest(BlogView(k, docs[k]), out);
        remaining := remaining - {k};
      }
      assert docs.Keys - remaining == docs.Keys;
      ListedOnce(out, docs.Keys);
      r := Reply(200, out);
    }

    /** `getBlogById`: not found for an absent id, otherwise the stored blog. */
    method GetBlogById(id: string) returns (r: Result<Reply<BlogView>, ApiError>)
      ensures id !in docs <==> r == Err(NotFound(BlogNotFound))
      ensures id in docs ==> r == Ok(Reply(200, BlogView(id, docs[id])))
    {
      if id !in docs {
        return Err(NotFound(BlogNotFound));
      }
      r := Ok(Reply(200, BlogView(id, docs[id])));
    }

    /** `updateBlog`: on success rewrites only the target document and answers with the
        updated one; on any error writes nothing. */
    method UpdateBlog(id: string, body: BlogFormValues, user: string)
      returns (r: Result<Reply<BlogView>, ApiError>)
      requires Valid()
      modifies this
      ensures Valid()
      ensures r == UpdateResult(old(docs), id, body, user)
      ensures r.Ok? ==> docs == old(docs)[id := r.value.body.doc]
      ensures r.Err? ==> docs == old(docs)
    {
      if id !in docs {
        return Err(NotFound(BlogNotFound));
      }
      var current := docs[id];
      if body.title != "" && body.title != current.title {
        var title := Trim(body.title);
        if exists k :: k in docs && k != id && docs[k].title == title {
          return Err(Conflict(AnotherTitleExists, "title", body.title));
        }
      }
      var updated := Updated(current, body, user);
      UpdatePreservesValid(docs, id, body, user);
      docs := docs[id := updated];
      r := Ok(Reply(200, BlogView(id, updated)));
    }

    /** `deleteBlog`: removes exactly that document (there is nothing to remove when the id
        is absent, which is the not-found case). */
    method DeleteBlog(id: string) returns (r: Result<Reply<DeleteConfirmation>, ApiError>)
      requires Valid()
      modifies this
      ensures Valid()
      ensures r == DeleteResult(old(docs), id)
      ensures docs == old(docs) - {id}
    {
      if id !in docs {
        return Err(NotFound(BlogNotFound));
      }
      DeletePreservesValid(docs, id);
      docs := docs - {id};
      r := Ok(Reply(200, DeleteConfirmation(true, Deleted, id)));
    }
  }
}
