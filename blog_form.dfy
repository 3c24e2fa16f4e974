/** The blog form component: the values it starts from and the tag editor, whose Enter key
    adds the typed tag and whose badges remove one. The form's values are checked by the
    same `blogFormSchema` as the server's. */
module BlogFormComponent {
  import opened Wrappers
  import opened Seqs
  import opened Strings
  import opened BlogTypes
  import opened BlogSchema

  // ---- starting values ----

  /** The values of a form opened on a stored blog: its own fields, `_id` included. */
  function FromBlog(b: Blog): (r: BlogFormValues)
    ensures r.id == Some(b.id) && r.authorAvatar == Some(b.authorAvatar)
    ensures r.title == b.title && r.content == b.content && r.author == b.author &&
      r.createdAt == b.createdAt && r.readTime == b.readTime && r.tags == b.tags &&
      r.featured == b.featured && r.likes == b.likes && r.bookmarks == b.bookmarks
  {
    BlogFormValues(Some(b.id), b.title, b.content, b.author, Some(b.authorAvatar), b.createdAt,
      b.readTime, b.tags, b.featured, b.likes, b.bookmarks)
  }

  /** The values of a new form; `today` is `format(new Date(), "yyyy-MM-dd")`. */
  function BlankValues(today: string): (r: BlogFormValues)
    ensures r.id.None? && r.createdAt == today && r.readTime == "5 min read"
    ensures r.title == "" && r.content == "" && r.author == "" && r.authorAvatar == Some("") && r.tags == []
    ensures !r.featured && r.likes == 0 && r.bookmarks == 0
  {
    BlogFormValues(None, "", "", "", Some(""), today, "5 min read", [], false, 0, 0)
  }

  /** `defaultValues || {...}`. */
  function InitialValues(given: Option<BlogFormValues>, today: string): (r: BlogFormValues)
    ensures given.Some? ==> r == given.value
    ensures given.None? ==> r.id.None? && r.createdAt == today && r.tags == []
  {
    if given.Some? then given.value else BlankValues(today)
  }

  /** Values submitted again, as the body the schema sees: every field present. */
  function ToRaw(v: BlogFormValues): RawBlogForm
  {
    RawBlogForm(v.id, Some(v.title), Some(v.content), Some(v.author), v.authorAvatar, Some(v.createdAt),
      Some(v.readTime), Some(v.tags), Some(v.featured), Some(v.likes), Some(v.bookmarks))
  }

  /** A new form cannot be submitted as it is: exactly the title, content, author and tags
      are reported, since the date of today and the default read time already pass. */
  lemma BlankFormIssues(today: string, p: string)
    requires IsDateText(today)
    ensures HasIssueAt(Issues(ToRaw(BlankValues(today))), p) <==>
      p == "title" || p == "content" || p == "author" || p == "tags"
  {
    IssuesAt(ToRaw(BlankValues(today)), p);
  }

  /** Parsed values parse to themselves: the schema's defaults are already filled in. */
  lemma ParseIdempotent(raw: RawBlogForm)
    requires Parse(raw).Ok?
    ensures Parse(ToRaw(Parse(raw).value)) == Parse(raw)
  {
    var v := Parse(raw).value;
    assert TagsOk(Some(v.tags));
  }

  // ---- tags ----

  /** Pressing Enter adds the trimmed input when it is not blank and not a tag already. */
  predicate Accepts(tags: seq<string>, input: string)
  {
    Trim(input) != "" && Trim(input) !in tags
  }

  /** The tags after Enter. */
  function AddTag(tags: seq<string>, input: string): (r: seq<string>)
    ensures Accepts(tags, input) ==> r == tags + [Trim(input)]
    ensures !Accepts(tags, input) ==> r == tags
    ensures Trim(input) != "" ==> Trim(input) in r
  {
    if Accepts(tags, input) then tags + [Trim(input)] else tags
  }

  function NotTag(t: string): string -> bool
  {
    (x: string) => x != t
  }

  /** `removeTag`: every tag equal to t goes, the others stay in order. */
  function RemoveTagFrom(tags: seq<string>, t: string): (r: seq<string>)
    ensures t !in r
    ensures forall i :: 0 <= i < |tags| && tags[i] != t ==> tags[i] in r
    ensures forall i :: 0 <= i < |r| ==> r[i] in tags
    ensures IsSubsequence(r, tags)
    ensures forall x :: multiset(r)[x] == if x == t then 0 else multiset(tags)[x]
  {
    FilterIsSubsequence(tags, NotTag(t));
    FilterCounts(tags, NotTag(t));
    Filter(tags, NotTag(t))
  }

  /** Adding a tag never makes a duplicate. */
  lemma AddTagKeepsNoDup(tags: seq<string>, input: string)
    requires NoDup(tags)
    ensures NoDup(AddTag(tags, input))
  {
    if Accepts(tags, input) {
      var r := tags + [Trim(input)];
      forall i, j | 0 <= i < j < |r| ensures r[i] != r[j] {
        if j == |tags| {
          assert r[i] == tags[i];
        } else {
          assert r[i] == tags[i] && r[j] == tags[j];
        }
      }
    }
  }

  /** Removing a tag just added gives back the tags there were. */
  lemma RemoveAfterAdd(tags: seq<string>, input: string)
    requires Accepts(tags, input)
    ensures RemoveTagFrom(AddTag(tags, input), Trim(input)) == tags
  {
    var t := Trim(input);
    FilterConcat(tags, [t], NotTag(t));
    FilterAll(tags, NotTag(t));
    FilterCons(t, [], NotTag(t));
    assert [t] + [] == [t];
  }

  /** The tag input and the form's `tags` value. */
  class TagEditor {
    var tags: seq<string>
    /** The text in the tag input. */
    var input: string

    constructor (initial: seq<string>)
      ensures tags == initial && input == ""
    {
      tags := initial;
      input := "";
    }

    /** Typing in the tag input. */
    method SetInput(s: string)
      modifies this
      ensures input == s && tags == old(tags)
    {
      input := s;
    }

    /** `handleTagKeyDown`: on Enter the trimmed input is added and the input cleared, when
        it is accepted; a rejected input stays in the box. Other keys change nothing here. */
    method HandleTagKeyDown(key: string)
      modifies this
      ensures key == "Enter" ==> tags == AddTag(old(tags), old(input))
      ensures key == "Enter" && Accepts(old(tags), old(input)) ==> input == ""
      ensures !(key == "Enter" && Accepts(old(tags), old(input))) ==> input == old(input)
      ensures key != "Enter" ==> tags == old(tags)
      ensures NoDup(old(tags)) ==> NoDup(tags)
    {
      if key == "Enter" {
        var tagInput := Trim(input);
        if tagInput != "" && tagInput !in tags {
          if NoDup(tags) {
            AddTagKeepsNoDup(tags, input);
          }
          tags := tags + [tagInput];
          input := "";
        }
      }
    }

    /** `removeTag` from a badge's button. */
    method RemoveTag(t: string)
      modifies this
      ensures tags == RemoveTagFrom(old(tags), t)
      ensures input == old(input)
      ensures NoDup(old(tags)) ==> NoDup(tags)
    {
      if NoDup(tags) {
        FilterNoDup(tags, NotTag(t));
      }
      tags := RemoveTagFrom(tags, t);
    }
  }
}
