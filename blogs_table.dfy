/** The admin blogs table: which column it sorts by and in which direction, the
    two-step delete confirmation, and the text it shows for a title and for the tags. */
module BlogsTable {
  import opened Wrappers
  import opened BlogTypes
  import opened BlogOrder

  // ---- cell text ----

  const MaxTitleLength: nat := 30

  /** `truncateTitle`: a title longer than 30 characters shows its first 30 and "...". */
  function TruncateTitle(title: string): (r: string)
    ensures |title| <= MaxTitleLength ==> r == title
    ensures |title| > MaxTitleLength ==> |r| == MaxTitleLength + 3 && r[..MaxTitleLength] == title[..MaxTitleLength] && r[MaxTitleLength..] == "..."
  {
    if |title| > MaxTitleLength then title[..MaxTitleLength] + "..." else title
  }

  /** The full title is offered in a tooltip exactly when it is too long to show. */
  predicate ShowsTooltip(title: string)
  {
    |title| > MaxTitleLength
  }

  /** Whatever the title, the text shown is a prefix of it of at most 30 characters,
      followed by "..." exactly when the tooltip holds the rest. */
  lemma TruncatedIsPrefix(title: string)
    ensures var r := TruncateTitle(title);
      var shown := if ShowsTooltip(title) then |r| - 3 else |r|;
      0 <= shown <= MaxTitleLength && shown <= |title| && r[..shown] == title[..shown] &&
      (ShowsTooltip(title) <==> |r| > MaxTitleLength)
  {
  }

  /** The tag badges: the first two tags. */
  function VisibleTags(tags: seq<string>): (r: seq<string>)
    ensures |r| == (if |tags| <= 2 then |tags| else 2) && r == tags[..|r|]
    ensures |tags| <= 2 ==> r == tags
  {
    if |tags| <= 2 then tags else tags[..2]
  }

  /** The "+n" badge: how many tags are not shown, when there are any. */
  function HiddenTagCount(tags: seq<string>): (r: Option<nat>)
    ensures r.Some? <==> |tags| > 2
    ensures r.Some? ==> r.value > 0
  {
    if |tags| > 2 then Some(|tags| - 2) else None
  }

  /** The badges account for every tag: the shown ones plus the "+n" count. */
  lemma TagBadgesCountAll(tags: seq<string>)
    ensures |VisibleTags(tags)| + (if HiddenTagCount(tags).Some? then HiddenTagCount(tags).value else 0) == |tags|
  {
  }

  // ---- sorting ----

  /** `handleSort(field)`: the same column flips the direction; another column becomes the
      sort column, descending. */
  function NextSort(current: SortField, dir: SortDirection, clicked: SortField): (r: (SortField, SortDirection))
    ensures r.0 == clicked
    ensures clicked != current ==> r.1 == Desc
    ensures clicked == current ==> r.1 != dir
  {
    if clicked == current then (current, if dir == Asc then Desc else Asc)
    else (clicked, Desc)
  }

  /** Clicking the sort column twice restores its direction. */
  lemma SortTwiceRestores(current: SortField, dir: SortDirection)
    ensures var once := NextSort(current, dir, current);
      NextSort(once.0, once.1, current) == (current, dir)
  {
  }

  /** Clicking a new column twice sorts it ascending. */
  lemma NewColumnTwiceAscends(current: SortField, dir: SortDirection, clicked: SortField)
    requires clicked != current
    ensures var once := NextSort(current, dir, clicked);
      NextSort(once.0, once.1, clicked) == (clicked, Asc)
  {
  }

  // ---- delete confirmation ----

  /** `confirmDelete`: with a truthy pending id, `onDelete` is called with it and the dialog
      closes; otherwise nothing happens. Returns the new pending id and the ids deleted so far. */
  function ConfirmStep(pending: Option<string>, deleted: seq<string>): (r: (Option<string>, seq<string>))
    ensures |deleted| <= |r.1| <= |deleted| + 1 && r.1[..|deleted|] == deleted
    ensures |r.1| == |deleted| + 1 <==> pending.Some? && pending.value != ""
    ensures |r.1| == |deleted| + 1 ==> r.1[|deleted|] == pending.value && r.0.None?
    ensures |r.1| == |deleted| ==> r.0 == pending
  {
    if pending.Some? && pending.value != "" then (None, deleted + [pending.value]) else (pending, deleted)
  }

  /** Confirming twice calls `onDelete` once: the second confirmation finds no pending id. */
  lemma ConfirmTwiceDeletesOnce(id: string, deleted: seq<string>)
    requires id != ""
    ensures var once := ConfirmStep(Some(id), deleted);
      ConfirmStep(once.0, once.1) == (None, deleted + [id])
  {
  }

  class TableState {
    var sortField: SortField
    var sortDirection: SortDirection
    /** The id the delete dialog asks about; the dialog is open while it is not None. */
    var deleteConfirmId: Option<string>
    /** The ids passed to `onDelete`, in order. */
    var deleted: seq<string>

    /** The table as first rendered: newest first, no dialog open. */
    constructor ()
      ensures sortField == CreatedAt && sortDirection == Desc
      ensures deleteConfirmId.None? && deleted == []
    {
      sortField := CreatedAt;
      sortDirection := Desc;
      deleteConfirmId := None;
      deleted := [];
    }

    /** The rows, in the order shown. */
    function SortedBlogs(blogs: seq<Blog>): (r: seq<Blog>)
      reads this
      ensures multiset(r) == multiset(blogs)
      ensures Sorted(r, sortField, sortDirection)
    {
      Sort(blogs, sortField, sortDirection)
    }

    method HandleSort(field: SortField)
      modifies this
      ensures (sortField, sortDirection) == NextSort(old(sortField), old(sortDirection), field)
      ensures deleteConfirmId == old(deleteConfirmId) && deleted == old(deleted)
    {
      if sortField == field {
        sortDirection := if sortDirection == Asc then Desc else Asc;
      } else {
        sortField := field;
        sortDirection := Desc;
      }
    }

    /** `handleDeleteClick`: opens the dialog for this id. */
    method HandleDeleteClick(id: string)
      modifies this
      ensures deleteConfirmId == Some(id)
      ensures sortField == old(sortField) && sortDirection == old(sortDirection) && deleted == old(deleted)
    {
      deleteConfirmId := Some(id);
    }

    method ConfirmDelete()
      modifies this
      ensures (deleteConfirmId, deleted) == ConfirmStep(old(deleteConfirmId), old(deleted))
      ensures sortField == old(sortField) && sortDirection == old(sortDirection)
    {
      if deleteConfirmId.Some? && deleteConfirmId.value != "" {
        deleted := deleted + [deleteConfirmId.value];
        deleteConfirmId := None;
      }
    }

    /** `cancelDelete`, also run when the dialog is dismissed. */
    method CancelDelete()
      modifies this
      ensures deleteConfirmId.None?
      ensures sortField == old(sortField) && sortDirection == old(sortDirection) && deleted == old(deleted)
    {
      deleteConfirmId := None;
    }
  }
}
