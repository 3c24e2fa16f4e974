/** The zod `blogFormSchema` that the create and update routes check request bodies
    against: per-field constraints, the issues zod reports, and the defaults it fills in. */
module BlogSchema {
  import opened Wrappers

  /** One validation issue: the top-level field it is about and its message. */
  datatype Issue = Issue(path: string, message: string)

  /** The body as it arrives: any field may be missing. */
  datatype RawBlogForm = RawBlogForm(
    id: Option<string>,
    title: Option<string>,
    content: Option<string>,
    author: Option<string>,
    authorAvatar: Option<string>,
    createdAt: Option<string>,
    readTime: Option<string>,
    tags: Option<seq<string>>,
    featured: Option<bool>,
    likes: Option<int>,
    bookmarks: Option<int>)

  /** `BlogFormValues`, the parsed body with every default filled in. */
  datatype BlogFormValues = BlogFormValues(
    id: Option<string>,
    title: string,
    content: string,
    author: string,
    authorAvatar: Option<string>,
    createdAt: string,
    readTime: string,
    tags: seq<string>,
    featured: bool,
    likes: int,
    bookmarks: int)

  const Required := "Required"

  /** `\d` in a JavaScript regular expression. */
  predicate IsDigit(c: char)
  {
    '0' <= c <= '9'
  }

  /** `/^\d{4}-\d{2}-\d{2}$/`: four digits, a dash, two digits, a dash, two digits and
      nothing else. Month and day ranges are not checked. */
  predicate IsDateText(s: string)
  {
    |s| == 10 && s[4] == '-' && s[7] == '-' &&
    forall i :: 0 <= i < 10 && i != 4 && i != 7 ==> IsDigit(s[i])
  }

  // The constraint on each field, stated on its own.

  predicate TitleOk(v: Option<string>)     { v.Some? && 5 <= |v.value| <= 100 }
  predicate ContentOk(v: Option<string>)   { v.Some? && |v.value| >= 50 }
  predicate AuthorOk(v: Option<string>)    { v.Some? && |v.value| >= 3 }
  predicate CreatedAtOk(v: Option<string>) { v.Some? && IsDateText(v.value) }
  predicate ReadTimeOk(v: Option<string>)  { v.Some? && |v.value| >= 3 }
  predicate TagsOk(v: Option<seq<string>>)
  {
    v.Some? && |v.value| >= 1 && forall i :: 0 <= i < |v.value| ==> |v.value[i]| >= 2
  }
  predicate CountOk(v: Option<int>)        { v.None? || v.value >= 0 }

  /** Some issue is about this field. */
  predicate HasIssueAt(issues: seq<Issue>, path: string)
  {
    exists i :: 0 <= i < |issues| && issues[i].path == path
  }

  /** The issues of a string field with a `.min(n)` check (message m). */
  function MinLengthIssues(path: string, v: Option<string>, min: nat, minMessage: string): (r: seq<Issue>)
    ensures forall i :: 0 <= i < |r| ==> r[i].path == path
    ensures r == [] <==> v.Some? && min <= |v.value|
  {
    if v.None? then [Issue(path, Required)]
    else if |v.value| < min then [Issue(path, minMessage)]
    else []
  }

  /** The issues of the title: `.min(5)` with its message, then `.max(100)`. */
  function TitleIssues(v: Option<string>): (r: seq<Issue>)
    ensures forall i :: 0 <= i < |r| ==> r[i].path == "title"
    ensures r == [] <==> TitleOk(v)
  {
    if v.None? then [Issue("title", Required)]
    else
      (if |v.value| < 5 then [Issue("title", "Title must be at least 5 characters")] else []) +
      (if |v.value| > 100 then [Issue("title", "String must contain at most 100 character(s)")] else [])
  }

  function DateIssues(v: Option<string>): (r: seq<Issue>)
    ensures forall i :: 0 <= i < |r| ==> r[i].path == "createdAt"
    ensures r == [] <==> CreatedAtOk(v)
  {
    if v.None? then [Issue("createdAt", Required)]
    else if !IsDateText(v.value) then [Issue("createdAt", "Must be YYYY-MM-DD format")]
    else []
  }

  /** The issues of the tag list: the array minimum first, then one per too-short tag. */
  function TagIssues(v: Option<seq<string>>): (r: seq<Issue>)
    ensures forall i :: 0 <= i < |r| ==> r[i].path == "tags"
    ensures r == [] <==> TagsOk(v)
  {
    if v.None? then [Issue("tags", Required)]
    else
      (if |v.value| < 1 then [Issue("tags", "At least one tag is required")] else []) +
      ShortTagIssues(v.value)
  }

  function ShortTagIssues(tags: seq<string>): (r: seq<Issue>)
    ensures forall i :: 0 <= i < |r| ==> r[i].path == "tags"
    ensures r == [] <==> forall i :: 0 <= i < |tags| ==> |tags[i]| >= 2
    decreases |tags|
  {
    if tags == [] then []
    else
      (if |tags[0]| < 2 then [Issue("tags", "String must contain at least 2 character(s)")] else []) +
      ShortTagIssues(tags[1..])
  }

  function CountIssues(path: string, v: Option<int>): (r: seq<Issue>)
    ensures forall i :: 0 <= i < |r| ==> r[i].path == path
    ensures r == [] <==> CountOk(v)
  {
    if v.Some? && v.value < 0 then [Issue(path, "Number must be greater than or equal to 0")] else []
  }

  /** Every issue the schema reports for a body, field by field in the schema's order. */
  function Issues(raw: RawBlogForm): seq<Issue>
  {
    TitleIssues(raw.title) +
    MinLengthIssues("content", raw.content, 50, "Content must be at least 50 characters") +
    MinLengthIssues("author", raw.author, 3, "Author name must be at least 3 characters") +
    DateIssues(raw.createdAt) +
    MinLengthIssues("readTime", raw.readTime, 3, "Read time must be at least 3 characters") +
    TagIssues(raw.tags) +
    CountIssues("likes", raw.likes) +
    CountIssues("bookmarks", raw.bookmarks)
  }

  /** A concatenation has an issue on a path iff one of its parts does. */
  lemma HasIssueAtConcat(a: seq<Issue>, b: seq<Issue>, path: string)
    ensures HasIssueAt(a + b, path) <==> HasIssueAt(a, path) || HasIssueAt(b, path)
  {
    if HasIssueAt(a + b, path) {
      var i :| 0 <= i < |a + b| && (a + b)[i].path == path;
      if i >= |a| {
        assert b[i - |a|].path == path;
      }
    }
    if HasIssueAt(a, path) {
      var i :| 0 <= i < |a| && a[i].path == path;
      assert (a + b)[i].path == path;
    }
    if HasIssueAt(b, path) {
      var i :| 0 <= i < |b| && b[i].path == path;
      assert (a + b)[|a| + i].path == path;
    }
  }

  /** A list whose issues are all about field q has an issue on p iff it is non-empty and p is q. */
  lemma HasIssueAtUniform(x: seq<Issue>, q: string, p: string)
    requires forall i :: 0 <= i < |x| ==> x[i].path == q
    ensures HasIssueAt(x, p) <==> x != [] && p == q
  {
    if x != [] && p == q {
      assert x[0].path == p;
    }
  }

  /** The fields that have issues are exactly those whose constraint fails. */
  lemma IssuesAt(raw: RawBlogForm, p: string)
    ensures HasIssueAt(Issues(raw), p) <==>
      (p == "title" && !TitleOk(raw.title)) ||
      (p == "content" && !ContentOk(raw.content)) ||
      (p == "author" && !AuthorOk(raw.author)) ||
      (p == "createdAt" && !CreatedAtOk(raw.createdAt)) ||
      (p == "readTime" && !ReadTimeOk(raw.readTime)) ||
      (p == "tags" && !TagsOk(raw.tags)) ||
      (p == "likes" && !CountOk(raw.likes)) ||
      (p == "bookmarks" && !CountOk(raw.bookmarks))
  {
    var t := TitleIssues(raw.title);
    var c := MinLengthIssues("content", raw.content, 50, "Content must be at least 50 characters");
    var a := MinLengthIssues("author", raw.author, 3, "Author name must be at least 3 characters");
    var d := DateIssues(raw.createdAt);
    var rt := MinLengthIssues("readTime", raw.readTime, 3, "Read time must be at least 3 characters");
    var tg := TagIssues(raw.tags);
    var l := CountIssues("likes", raw.likes);
    var b := CountIssues("bookmarks", raw.bookmarks);
    HasIssueAtConcat(t, c, p);
    HasIssueAtConcat(t + c, a, p);
    HasIssueAtConcat(t + c + a, d, p);
    HasIssueAtConcat(t + c + a + d, rt, p);
    HasIssueAtConcat(t + c + a + d + rt, tg, p);
    HasIssueAtConcat(t + c + a + d + rt + tg, l, p);
    HasIssueAtConcat(t + c + a + d + rt + tg + l, b, p);
    HasIssueAtUniform(t, "title", p);
    HasIssueAtUniform(c, "content", p);
    HasIssueAtUniform(a, "author", p);
    HasIssueAtUniform(d, "createdAt", p);
    HasIssueAtUniform(rt, "readTime", p);
    HasIssueAtUniform(tg, "tags", p);
    HasIssueAtUniform(l, "likes", p);
    HasIssueAtUniform(b, "bookmarks", p);
  }

  /** Every field meets its constraint. */
  predicate FormOk(raw: RawBlogForm)
  {
    TitleOk(raw.title) && ContentOk(raw.content) && AuthorOk(raw.author) &&
    CreatedAtOk(raw.createdAt) && ReadTimeOk(raw.readTime) && TagsOk(raw.tags) &&
    CountOk(raw.likes) && CountOk(raw.bookmarks)
  }

  /** No issue at all is reported exactly when every field meets its constraint. */
  lemma NoIssuesIffFormOk(raw: RawBlogForm)
    ensures Issues(raw) == [] <==> FormOk(raw)
  {
    var t := TitleIssues(raw.title);
    var c := MinLengthIssues("content", raw.content, 50, "Content must be at least 50 characters");
    var a := MinLengthIssues("author", raw.author, 3, "Author name must be at least 3 characters");
    var d := DateIssues(raw.createdAt);
    var rt := MinLengthIssues("readTime", raw.readTime, 3, "Read time must be at least 3 characters");
    var tg := TagIssues(raw.tags);
    var l := CountIssues("likes", raw.likes);
    var b := CountIssues("bookmarks", raw.bookmarks);
    assert |Issues(raw)| == |t| + |c| + |a| + |d| + |rt| + |tg| + |l| + |b|;
  }

  /** `blogFormSchema.safeParse(raw)`: the parsed values with `featured` defaulting to
      false and `likes`/`bookmarks` to 0, or every issue found. */
  function Parse(raw: RawBlogForm): (r: Result<BlogFormValues, seq<Issue>>)
    ensures r.Ok? <==> FormOk(raw)
    ensures r.Err? ==> r.error == Issues(raw) && |r.error| > 0
    ensures r.Ok? ==>
      r.value.id == raw.id && r.value.authorAvatar == raw.authorAvatar &&
      Some(r.value.title) == raw.title && Some(r.value.content) == raw.content &&
      Some(r.value.author) == raw.author && Some(r.value.createdAt) == raw.createdAt &&
      Some(r.value.readTime) == raw.readTime && Some(r.value.tags) == raw.tags &&
      r.value.featured == (if raw.featured.Some? then raw.featured.value else false) &&
      r.value.likes == (if raw.likes.Some? then raw.likes.value else 0) &&
      r.value.bookmarks == (if raw.bookmarks.Some? then raw.bookmarks.value else 0) &&
      r.value.likes >= 0 && r.value.bookmarks >= 0
  {
    NoIssuesIffFormOk(raw);
    var issues := Issues(raw);
    if issues != [] then Err(issues)
    else
      Ok(BlogFormValues(
        raw.id, raw.title.value, raw.content.value, raw.author.value, raw.authorAvatar,
        raw.createdAt.value, raw.readTime.value, raw.tags.value,
        if raw.featured.Some? then raw.featured.value else false,
        if raw.likes.Some? then raw.likes.value else 0,
        if raw.bookmarks.Some? then raw.bookmarks.value else 0))
  }

  /** Each field's issues are reported exactly when that field's own constraint fails;
      the optional `_id` and `authorAvatar` never have any. */
  lemma IssuesPerField(raw: RawBlogForm)
    ensures HasIssueAt(Issues(raw), "title") <==> !TitleOk(raw.title)
    ensures HasIssueAt(Issues(raw), "tags") <==> !TagsOk(raw.tags)
    ensures HasIssueAt(Issues(raw), "createdAt") <==> !CreatedAtOk(raw.createdAt)
    ensures !HasIssueAt(Issues(raw), "_id") && !HasIssueAt(Issues(raw), "authorAvatar")
  {
    IssuesAt(raw, "title");
    IssuesAt(raw, "tags");
    IssuesAt(raw, "createdAt");
    IssuesAt(raw, "_id");
    IssuesAt(raw, "authorAvatar");
  }
}
