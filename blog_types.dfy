/** The client's `Blog` record, as the REST API returns it and the Redux store holds it. */
module BlogTypes {

  datatype Blog = Blog(
    id: string,
    title: string,
    content: string,
    author: string,
    authorAvatar: string,
    createdAt: string,
    readTime: string,
    tags: seq<string>,
    featured: bool,
    likes: int,
    bookmarks: int)

  /** No two blogs of the list share an `_id`. */
  ghost predicate DistinctIds(s: seq<Blog>)
  {
    forall i, j :: 0 <= i < j < |s| ==> s[i].id != s[j].id
  }

  /** Some blog of the list has this `_id`. */
  ghost predicate HasId(s: seq<Blog>, id: string)
  {
    exists i :: 0 <= i < |s| && s[i].id == id
  }

  /** The tail of a list with distinct ids has distinct ids, none of them the head's. */
  lemma DistinctIdsTail(s: seq<Blog>)
    requires s != [] && DistinctIds(s)
    ensures DistinctIds(s[1..])
    ensures forall y :: y in s[1..] ==> y.id != s[0].id
  {
    forall i, j | 0 <= i < j < |s[1..]| ensures s[1..][i].id != s[1..][j].id {
      assert s[1..][i] == s[i + 1] && s[1..][j] == s[j + 1];
    }
    forall y | y in s[1..] ensures y.id != s[0].id {
      var k :| 0 <= k < |s[1..]| && s[1..][k] == y;
      assert s[k + 1] == y;
    }
  }

  /** A blog whose id the list lacks can go in front of it. */
  lemma DistinctIdsCons(x: Blog, s: seq<Blog>)
    requires DistinctIds(s)
    requires forall y :: y in s ==> y.id != x.id
    ensures DistinctIds([x] + s)
  {
    var r := [x] + s;
    forall i, j | 0 <= i < j < |r| ensures r[i].id != r[j].id {
      if i == 0 {
        assert r[j] == s[j - 1];
      } else {
        assert r[i] == s[i - 1] && r[j] == s[j - 1];
      }
    }
  }
}
