/** `insert_bookmarks` over a two-table store: a table of post rows whose
    identifiers the engine hands out (`RETURNING ID`), and a table of
    (tag name, post id) rows. */
module Store {
  import opened Util
  import opened Bookmarks

  datatype PostRow = PostRow(id: nat, url: string, title: string, description: string,
                             visibility: int, creationTime: DateTime)

  datatype TagRow = TagRow(tagName: string, postId: nat)

  /** Bookmarks coming from the remote account are visible by default. */
  const Visible: int := 1

  /** The tag every mirrored post receives before its own tags. */
  const DefaultExtraTags: seq<string> := ["mastodon_bookmark"]

  /** The post row written for a bookmark that receives identifier `id`. */
  function PostRowFor(b: Bookmark, id: nat): (r: PostRow)
    ensures r.id == id && r.visibility == Visible
    ensures Bookmark(r.url, r.title, r.description, r.creationTime, b.tags) == b
  {
    PostRow(id, b.url, b.title, b.description, Visible, b.creationTime)
  }

  /** The post rows written for bookmarks taken in `order`, the first
      receiving `firstId`. */
  function PostRows(order: seq<Bookmark>, firstId: nat): (rows: seq<PostRow>)
    ensures |rows| == |order|
  {
    if order == [] then [] else [PostRowFor(order[0], firstId)] + PostRows(order[1..], firstId + 1)
  }

  /** The bookmark at position `i` of the batch gets the post row with
      identifier `firstId + i`. */
  lemma {:induction false} PostRowsAt(order: seq<Bookmark>, firstId: nat, i: nat)
    requires i < |order|
    ensures PostRows(order, firstId)[i] == PostRowFor(order[i], firstId + i)
  {
    if i > 0 {
      PostRowsAt(order[1..], firstId + 1, i - 1);
    }
  }

  /** One tag row per name, in order, all pointing at post `id`. */
  function TagRowsFor(names: seq<string>, id: nat): (rows: seq<TagRow>)
    ensures |rows| == |names|
  {
    if names == [] then [] else [TagRow(names[0], id)] + TagRowsFor(names[1..], id)
  }

  /** Every row written for one post points at that post. */
  lemma {:induction false} TagRowsForPointAt(names: seq<string>, id: nat)
    ensures forall t :: t in TagRowsFor(names, id) ==> t.postId == id
  {
    if names != [] {
      TagRowsForPointAt(names[1..], id);
    }
  }

  /** Adding one more name adds one more row at the end. */
  lemma {:induction false} TagRowsForSnoc(names: seq<string>, name: string, id: nat)
    ensures TagRowsFor(names + [name], id) == TagRowsFor(names, id) + [TagRow(name, id)]
  {
    if names == [] {
      assert names + [name] == [name];
    } else {
      assert (names + [name])[1..] == names[1..] + [name];
      TagRowsForSnoc(names[1..], name, id);
    }
  }

  /** The tag rows written for bookmarks taken in `order`: for each one the
      extra tags and then its own tags. */
  function TagRows(order: seq<Bookmark>, extraTags: seq<string>, firstId: nat): seq<TagRow>
  {
    if order == [] then []
    else TagRowsFor(extraTags + order[0].tags, firstId) + TagRows(order[1..], extraTags, firstId + 1)
  }

  /** The names of the tag rows that point at post `id`, in row order. */
  function TagsOf(rows: seq<TagRow>, id: nat): seq<string>
  {
    if rows == [] then []
    else (if rows[0].postId == id then [rows[0].tagName] else []) + TagsOf(rows[1..], id)
  }

  /** The identifiers of a post table. */
  function Ids(posts: seq<PostRow>): set<nat>
  {
    set r | r in posts :: r.id
  }

  lemma {:induction false} TagsOfAppend(a: seq<TagRow>, b: seq<TagRow>, id: nat)
    ensures TagsOf(a + b, id) == TagsOf(a, id) + TagsOf(b, id)
  {
    if a == [] {
      assert a + b == b;
    } else {
      assert (a + b)[1..] == a[1..] + b;
      TagsOfAppend(a[1..], b, id);
    }
  }

  /** The rows written for one post carry its tag names if asked about that
      post, and nothing otherwise. */
  lemma {:induction false} TagsOfRowsFor(names: seq<string>, id: nat, query: nat)
    ensures TagsOf(TagRowsFor(names, id), query) == if id == query then names else []
  {
    if names != [] {
      var rows := TagRowsFor(names, id);
      assert rows[1..] == TagRowsFor(names[1..], id);
      TagsOfRowsFor(names[1..], id, query);
    }
  }

  /** Processing one more bookmark appends its post row at the end. */
  lemma PostRowsSnoc(order: seq<Bookmark>, b: Bookmark, firstId: nat)
    ensures PostRows(order + [b], firstId) == PostRows(order, firstId) + [PostRowFor(b, firstId + |order|)]
  {
    var lhs, rhs := PostRows(order + [b], firstId), PostRows(order, firstId) + [PostRowFor(b, firstId + |order|)];
    forall i | 0 <= i < |lhs| ensures lhs[i] == rhs[i] {
      PostRowsAt(order + [b], firstId, i);
      if i < |order| {
        PostRowsAt(order, firstId, i);
      }
    }
  }

  /** Processing one more bookmark appends its tag rows at the end. */
  lemma {:induction false} TagRowsSnoc(order: seq<Bookmark>, b: Bookmark, extraTags: seq<string>, firstId: nat)
    ensures TagRows(order + [b], extraTags, firstId)
         == TagRows(order, extraTags, firstId) + TagRowsFor(extraTags + b.tags, firstId + |order|)
  {
    if order == [] {
      assert order + [b] == [b];
    } else {
      var rows := TagRowsFor(extraTags + b.tags, firstId + |order|);
      assert (order + [b])[0] == order[0] && (order + [b])[1..] == order[1..] + [b];
      TagRowsSnoc(order[1..], b, extraTags, firstId + 1);
      AppendAssoc(TagRowsFor(extraTags + order[0].tags, firstId), TagRows(order[1..], extraTags, firstId + 1), rows);
    }
  }

  /** Every tag row of a batch points at one of the identifiers the batch's
      post rows received. */
  lemma {:induction false} TagRowsReferenceBatch(order: seq<Bookmark>, extraTags: seq<string>, firstId: nat)
    ensures forall t :: t in TagRows(order, extraTags, firstId) ==>
              firstId <= t.postId < firstId + |order|
  {
    if order != [] {
      TagRowsForPointAt(extraTags + order[0].tags, firstId);
      TagRowsReferenceBatch(order[1..], extraTags, firstId + 1);
    }
  }

  /** The tag rows of a batch that point at the post written `i`-th are
      exactly the extra tags followed by that bookmark's own tags. */
  lemma {:induction false} TagsOfPost(order: seq<Bookmark>, extraTags: seq<string>, firstId: nat, i: nat)
    requires i < |order|
    ensures TagsOf(TagRows(order, extraTags, firstId), firstId + i) == extraTags + order[i].tags
  {
    var q := firstId + i;
    var head := TagRowsFor(extraTags + order[0].tags, firstId);
    var tail := TagRows(order[1..], extraTags, firstId + 1);
    assert TagsOf(TagRows(order, extraTags, firstId), q) == TagsOf(head, q) + TagsOf(tail, q) by {
      assert TagRows(order, extraTags, firstId) == head + tail;
      TagsOfAppend(head, tail, q);
    }
    if i == 0 {
      assert TagsOf(tail, q) == [] by {
        TagRowsReferenceBatch(order[1..], extraTags, firstId + 1);
        TagsOfAbsent(tail, q);
      }
      assert TagsOf(head, q) == extraTags + order[0].tags by {
        TagsOfRowsFor(extraTags + order[0].tags, firstId, q);
      }
    } else {
      assert TagsOf(tail, q) == extraTags + order[i].tags by {
        TagsOfPost(order[1..], extraTags, firstId + 1, i - 1);
        assert order[1..][i - 1] == order[i];
      }
      assert TagsOf(head, q) == [] by {
        TagsOfRowsFor(extraTags + order[0].tags, firstId, q);
      }
    }
  }

  /** In the whole tag table after a batch, the tags of the post written
      `i`-th are exactly the extra tags followed by that bookmark's own tags:
      no earlier row points at a new identifier. */
  lemma TagsOfPostInTable(posts: seq<PostRow>, tags: seq<TagRow>, nextId: nat,
                          order: seq<Bookmark>, extraTags: seq<string>, i: nat)
    requires ValidTables(posts, tags, nextId) && i < |order|
    ensures TagsOf(tags + TagRows(order, extraTags, nextId), nextId + i) == extraTags + order[i].tags
  {
    var q := nextId + i;
    TagsOfAppend(tags, TagRows(order, extraTags, nextId), q);
    assert TagsOf(tags, q) == [] by {
      forall t | t in tags ensures t.postId != q {
        var k :| 0 <= k < |tags| && tags[k] == t;
        var r :| r in posts && r.id == t.postId;
        var m :| 0 <= m < |posts| && posts[m] == r;
      }
      TagsOfAbsent(tags, q);
    }
    TagsOfPost(order, extraTags, nextId, i);
  }

  lemma {:induction false} TagsOfAbsent(rows: seq<TagRow>, id: nat)
    requires forall t :: t in rows ==> t.postId != id
    ensures TagsOf(rows, id) == []
  {
    if rows != [] {
      assert rows[0] in rows;
      TagsOfAbsent(rows[1..], id);
    }
  }

  /** The `i`-th post row written for `bookmarks` is the one for the bookmark
      `i` places from the end of the input: `[B3, B2, B1]` is stored as B1, B2,
      B3, with increasing identifiers. The stored order is oldest first only
      when the input is newest first. */
  lemma InsertionReversesInput(bookmarks: seq<Bookmark>, firstId: nat, i: nat)
    requires i < |bookmarks|
    ensures PostRows(Reversed(bookmarks), firstId)[i]
         == PostRowFor(bookmarks[|bookmarks| - 1 - i], firstId + i)
  {
    ReversedIndex(bookmarks, i);
    PostRowsAt(Reversed(bookmarks), firstId, i);
  }

  /** Whether the engine accepts the post row of every bookmark of a batch
      taken in `order`, the first receiving `firstId`. */
  predicate AcceptsAll(refuses: PostRow -> bool, order: seq<Bookmark>, firstId: nat)
  {
    forall j :: 0 <= j < |order| ==> !refuses(PostRowFor(order[j], firstId + j))
  }

  /** A prefix whose rows are all accepted grows by one bookmark whose row
      is accepted. */
  lemma AcceptsNext(refuses: PostRow -> bool, order: seq<Bookmark>, k: nat, firstId: nat)
    requires k < |order| && AcceptsAll(refuses, order[..k], firstId)
    requires !refuses(PostRowFor(order[k], firstId + k))
    ensures AcceptsAll(refuses, order[..k + 1], firstId)
  {
    var prefix := order[..k + 1];
    forall j | 0 <= j < |prefix| ensures !refuses(PostRowFor(prefix[j], firstId + j)) {
      if j < k {
        assert prefix[j] == order[..k][j];
      }
    }
  }

  /** Whether a whole batch is accepted is decided by where it stops: every
      row before `done` accepted, and the row at `done` (if any) refused. */
  lemma AcceptsAllIffComplete(refuses: PostRow -> bool, order: seq<Bookmark>, done: nat, firstId: nat)
    requires done <= |order| && AcceptsAll(refuses, order[..done], firstId)
    requires done < |order| ==> refuses(PostRowFor(order[done], firstId + done))
    ensures AcceptsAll(refuses, order, firstId) <==> done == |order|
  {
    if done == |order| {
      assert order[..done] == order;
    }
  }

  /** How the tables grow when one more bookmark is processed. */
  lemma BatchStep(posts0: seq<PostRow>, tags0: seq<TagRow>,
                  order: seq<Bookmark>, k: nat, extraTags: seq<string>, firstId: nat)
    requires k < |order|
    ensures posts0 + PostRows(order[..k + 1], firstId)
         == (posts0 + PostRows(order[..k], firstId)) + [PostRowFor(order[k], firstId + k)]
    ensures tags0 + TagRows(order[..k + 1], extraTags, firstId)
         == (tags0 + TagRows(order[..k], extraTags, firstId)) + TagRowsFor(extraTags + order[k].tags, firstId + k)
  {
    var done, b := order[..k], order[k];
    assert order[..k + 1] == done + [b];
    PostRowsSnoc(done, b, firstId);
    AppendAssoc(posts0, PostRows(done, firstId), [PostRowFor(b, firstId + k)]);
    TagRowsSnoc(done, b, extraTags, firstId);
    AppendAssoc(tags0, TagRows(done, extraTags, firstId), TagRowsFor(extraTags + b.tags, firstId + k));
  }

  /** Identifiers grow with insertion order and stay below `nextId`, and
      every tag row points at an existing post. */
  ghost predicate ValidTables(posts: seq<PostRow>, tags: seq<TagRow>, nextId: nat)
  {
    && (forall i :: 0 <= i < |posts| ==> posts[i].id < nextId)
    && (forall i, j :: 0 <= i < j < |posts| ==> posts[i].id < posts[j].id)
    && (forall k :: 0 <= k < |tags| ==> tags[k].postId in Ids(posts))
  }

  /** Appending a batch keeps identifiers fresh and increasing and every tag
      row pointing at a post: the batch's tag rows point at the batch's own
      posts. */
  lemma BatchKeepsTablesValid(posts: seq<PostRow>, tags: seq<TagRow>, nextId: nat,
                              order: seq<Bookmark>, extraTags: seq<string>)
    requires ValidTables(posts, tags, nextId)
    ensures ValidTables(posts + PostRows(order, nextId), tags + TagRows(order, extraTags, nextId),
                        nextId + |order|)
  {
    var newPosts, newTags := PostRows(order, nextId), TagRows(order, extraTags, nextId);
    var posts', tags' := posts + newPosts, tags + newTags;
    forall i | 0 <= i < |posts'| ensures posts'[i].id < nextId + |order| {
      if i >= |posts| { PostRowsAt(order, nextId, i - |posts|); }
    }
    forall i, j | 0 <= i < j < |posts'| ensures posts'[i].id < posts'[j].id {
      if j >= |posts| { PostRowsAt(order, nextId, j - |posts|); }
      if i >= |posts| { PostRowsAt(order, nextId, i - |posts|); }
    }
    assert Ids(posts) <= Ids(posts') by {
      forall r | r in posts ensures r in posts' { }
    }
    TagRowsReferenceBatch(order, extraTags, nextId);
    forall k | 0 <= k < |tags'| ensures tags'[k].postId in Ids(posts') {
      if k >= |tags| {
        var t := newTags[k - |tags|];
        assert t == tags'[k] && t in newTags;
        var i := t.postId - nextId;
        PostRowsAt(order, nextId, i);
        assert newPosts[i].id == t.postId && posts'[|posts| + i] == newPosts[i];
      }
    }
  }

  /** The store behind the sqlite connection. `refuses` says which post
      inserts the engine rejects with an error (its schema is not part of this
      model). */
  class Database {
    var posts: seq<PostRow>
    var tags: seq<TagRow>
    var nextId: nat
    const refuses: PostRow -> bool

    /** The table invariant holds of the current tables. */
    ghost predicate Valid()
      reads this
    {
      ValidTables(posts, tags, nextId)
    }

    constructor (refuses: PostRow -> bool)
      ensures Valid()
      ensures posts == [] && tags == [] && nextId == 1 && this.refuses == refuses
    {
      this.refuses := refuses;
      posts, tags, nextId := [], [], 1;
    }

    /** One execution of the post insert followed by `fetchone`: the row gets
        the next identifier, which is returned. */
    method InsertPost(b: Bookmark) returns (insertedId: nat)
      requires Valid()
      modifies this
      ensures Valid()
      ensures insertedId == old(nextId) && nextId == old(nextId) + 1
      ensures posts == old(posts) + [PostRowFor(b, old(nextId))] && tags == old(tags)
    {
      assert Ids(posts) <= Ids(posts + [PostRowFor(b, nextId)]) by {
        forall r | r in posts ensures r in posts + [PostRowFor(b, nextId)] { }
      }
      posts := posts + [PostRowFor(b, nextId)];
      insertedId := nextId;
      nextId := nextId + 1;
    }

    /** The inner loop: one tag row per name for the post just inserted. */
    method InsertTags(names: seq<string>, postId: nat)
      requires Valid() && postId in Ids(posts)
      modifies this
      ensures Valid()
      ensures tags == old(tags) + TagRowsFor(names, postId)
      ensures posts == old(posts) && nextId == old(nextId)
    {
      var t := 0;
      while t < |names|
        invariant 0 <= t <= |names|
        invariant posts == old(posts) && nextId == old(nextId)
        invariant Valid()
        invariant tags == old(tags) + TagRowsFor(names[..t], postId)
      {
        assert names[..t + 1] == names[..t] + [names[t]];
        TagRowsForSnoc(names[..t], names[t], postId);
        tags := tags + [TagRow(names[t], postId)];
        t := t + 1;
      }
      assert names[..t] == names;
    }

    /** The statements run for one bookmark: the post insert and, with the
        identifier it returns, the tag inserts. A refused post insert raises
        and adds nothing. */
    method InsertOne(b: Bookmark, extraTags: seq<string>) returns (inserted: bool)
      requires Valid()
      modifies this
      ensures Valid()
      ensures inserted == !refuses(PostRowFor(b, old(nextId)))
      ensures inserted ==> && posts == old(posts) + [PostRowFor(b, old(nextId))]
                           && tags == old(tags) + TagRowsFor(extraTags + b.tags, old(nextId))
                           && nextId == old(nextId) + 1
      ensures !inserted ==> posts == old(posts) && tags == old(tags) && nextId == old(nextId)
    {
      if refuses(PostRowFor(b, nextId)) {
        return false;
      }
      var insertedId := InsertPost(b);
      assert posts[|posts| - 1] == PostRowFor(b, insertedId);
      InsertTags(extraTags + b.tags, insertedId);
      inserted := true;
    }

    /** The statements `insert_bookmarks` runs on its cursor, one bookmark
        after another in `order`, until the engine refuses one (which raises,
        leaving the later bookmarks unprocessed). `done` is the number of
        bookmarks whose rows were written: the tables hold the rows of exactly
        that accepted prefix, and a refusal is of the next bookmark. */
    method ExecuteAll(order: seq<Bookmark>, extraTags: seq<string>) returns (ok: bool, done: nat)
      requires Valid()
      modifies this
      ensures Valid()
      ensures done <= |order| && (ok <==> done == |order|)
      ensures AcceptsAll(refuses, order[..done], old(nextId))
      ensures !ok ==> refuses(PostRowFor(order[done], old(nextId) + done))
      ensures && posts == old(posts) + PostRows(order[..done], old(nextId))
              && tags == old(tags) + TagRows(order[..done], extraTags, old(nextId))
              && nextId == old(nextId) + done
    {
      var posts0, tags0, id0 := posts, tags, nextId;
      done := 0;
      while done < |order|
        invariant 0 <= done <= |order|
        invariant nextId == id0 + done
        invariant posts == posts0 + PostRows(order[..done], id0)
        invariant tags == tags0 + TagRows(order[..done], extraTags, id0)
        invariant AcceptsAll(refuses, order[..done], id0)
        invariant Valid()
      {
        BatchStep(posts0, tags0, order, done, extraTags, id0);
        var inserted := InsertOne(order[done], extraTags);
        if !inserted {
          return false, done;
        }
        AcceptsNext(refuses, order, done, id0);
        done := done + 1;
      }
      assert order[..done] == order;
      ok := true;
    }

    /** `insert_bookmarks`: walk the bookmarks in reverse; for each one add a
        visible post row under a fresh identifier, then one tag row per name
        of `extraTags + tags`; then commit. A refused insert raises before the
        commit, and the uncommitted rows are discarded with the connection. */
    method InsertBookmarks(bookmarks: seq<Bookmark>, extraTags: seq<string>) returns (ok: bool)
      requires Valid()
      modifies this
      ensures Valid()
      ensures ok <==> AcceptsAll(refuses, Reversed(bookmarks), old(nextId))
      ensures ok ==> && posts == old(posts) + PostRows(Reversed(bookmarks), old(nextId))
                     && tags == old(tags) + TagRows(Reversed(bookmarks), extraTags, old(nextId))
                     && nextId == old(nextId) + |bookmarks|
      ensures !ok ==> posts == old(posts) && tags == old(tags) && nextId == old(nextId)
    {
      var posts0, tags0, id0 := posts, tags, nextId;
      var done;
      ok, done := ExecuteAll(Reversed(bookmarks), extraTags);
      AcceptsAllIffComplete(refuses, Reversed(bookmarks), done, id0);
      if ok {
        assert Reversed(bookmarks)[..done] == Reversed(bookmarks);
      } else {
        posts, tags, nextId := posts0, tags0, id0;
      }
    }
  }
}
