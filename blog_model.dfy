/** The Mongoose `Blog` model: the shape of a stored blog document, which paths are
    required, the `trim` on the title and the defaults filled in when a document is built. */
module BlogModel {
  import opened Wrappers
  import opened Strings

  /** A stored blog document (without its `_id`, which is the key it is stored under). */
  datatype BlogDoc = BlogDoc(
    title: string,
    content: string,
    author: string,
    authorAvatar: Option<string>,
    createdAt: string,
    readTime: string,
    tags: seq<string>,
    featured: bool,
    likes: int,
    bookmarks: int,
    createdBy: Option<string>,
    updatedBy: Option<string>)

  /** The values a document is built from; a missing path is None. */
  datatype BlogInput = BlogInput(
    title: Option<string>,
    content: Option<string>,
    author: Option<string>,
    authorAvatar: Option<string>,
    createdAt: Option<string>,
    readTime: Option<string>,
    tags: Option<seq<string>>,
    featured: Option<bool>,
    likes: Option<int>,
    bookmarks: Option<int>,
    createdBy: Option<string>)

  /** The title setter: `trim: true` strips surrounding whitespace from a string value. */
  function TrimmedTitle(v: Option<string>): (r: Option<string>)
    ensures r.None? <==> v.None?
    ensures r.Some? ==> r.value == Trim(v.value)
  {
    if v.Some? then Some(Trim(v.value)) else None
  }

  /** A `required: true` String path is satisfied by a present, non-empty string. */
  predicate Present(v: Option<string>)
  {
    v.Some? && v.value != ""
  }

  /** The required paths whose check failed, in schema order, from the outcome of each. */
  function FailedRequired(titleOk: bool, contentOk: bool, authorOk: bool, createdAtOk: bool, readTimeOk: bool)
    : (r: seq<string>)
    ensures r == [] <==> titleOk && contentOk && authorOk && createdAtOk && readTimeOk
    ensures "title" in r <==> !titleOk
    ensures "content" in r <==> !contentOk
    ensures "tags" !in r
  {
    (if titleOk then [] else ["title"]) +
    (if contentOk then [] else ["content"]) +
    (if authorOk then [] else ["author"]) +
    (if createdAtOk then [] else ["createdAt"]) +
    (if readTimeOk then [] else ["readTime"])
  }

  /** The paths the `required` validators reject, in schema order. The title is checked
      after trimming. `tags` is a required array, which is never missing: an absent array
      is an empty one. */
  function MissingPaths(input: BlogInput): (r: seq<string>)
    ensures r == [] <==>
      Present(TrimmedTitle(input.title)) && Present(input.content) && Present(input.author) &&
      Present(input.createdAt) && Present(input.readTime)
    ensures "title" in r <==> !Present(TrimmedTitle(input.title))
    ensures "content" in r <==> !Present(input.content)
    ensures "tags" !in r
  {
    FailedRequired(Present(TrimmedTitle(input.title)), Present(input.content), Present(input.author),
      Present(input.createdAt), Present(input.readTime))
  }

  /** `new Blog(input)` followed by validation: the document with its defaults, or the
      paths that failed. */
  function NewBlog(input: BlogInput): (r: Result<BlogDoc, seq<string>>)
    ensures r.Ok? <==> MissingPaths(input) == []
    ensures r.Err? ==> r.error == MissingPaths(input) && r.error != []
    ensures r.Ok? ==>
      var d := r.value;
      Some(d.title) == TrimmedTitle(input.title) &&
      Some(d.content) == input.content && Some(d.author) == input.author &&
      d.authorAvatar == input.authorAvatar && Some(d.createdAt) == input.createdAt &&
      Some(d.readTime) == input.readTime &&
      d.tags == (if input.tags.Some? then input.tags.value else []) &&
      d.featured == (input.featured == Some(true)) &&
      d.likes == (if input.likes.Some? then input.likes.value else 0) &&
      d.bookmarks == (if input.bookmarks.Some? then input.bookmarks.value else 0) &&
      d.createdBy == input.createdBy && d.updatedBy.None?
  {
    var missing := MissingPaths(input);
    if missing != [] then Err(missing)
    else
      Ok(BlogDoc(
        TrimmedTitle(input.title).value,
        input.content.value,
        input.author.value,
        input.authorAvatar,
        input.createdAt.value,
        input.readTime.value,
        if input.tags.Some? then input.tags.value else [],
        if input.featured.Some? then input.featured.value else false,
        if input.likes.Some? then input.likes.value else 0,
        if input.bookmarks.Some? then input.bookmarks.value else 0,
        input.createdBy,
        None))
  }

  /** A stored title has no surrounding whitespace, is not empty, and trimming it again
      changes nothing. */
  lemma NewBlogTitleTrimmed(input: BlogInput)
    requires NewBlog(input).Ok?
    ensures var t := NewBlog(input).value.title;
      t != [] && !IsWhitespace(t[0]) && !IsWhitespace(t[|t| - 1]) && Trim(t) == t
  {
    TrimIdempotent(input.title.value);
  }

  /** A title made only of whitespace is rejected, even though it is present. */
  lemma BlankTitleRejected(input: BlogInput)
    requires input.title.Some? && AllWhitespace(input.title.value)
    ensures NewBlog(input).Err? && "title" in NewBlog(input).error
  {
  }

  /** With every required string present and non-blank, the document is built and the
      optional paths take their defaults. */
  lemma DefaultsApplied(input: BlogInput)
    requires Present(TrimmedTitle(input.title)) && Present(input.content) && Present(input.author)
    requires Present(input.createdAt) && Present(input.readTime)
    requires input.tags.None? && input.featured.None? && input.likes.None? && input.bookmarks.None?
    ensures NewBlog(input).Ok?
    ensures var d := NewBlog(input).value;
      d.tags == [] && !d.featured && d.likes == 0 && d.bookmarks == 0 && d.updatedBy.None?
  {
  }
}
