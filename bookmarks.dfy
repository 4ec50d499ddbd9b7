/** The remote post as the client library hands it over, the `Bookmark`
    record, and the pure mapping from one to the other. */
module Bookmarks {
  import opened Util

  /** A point in time as `datetime` carries it (time zone not modelled). */
  datatype DateTime = DateTime(year: int, month: int, day: int, hour: int,
                               minute: int, second: int, microsecond: int)

  datatype Tag = Tag(name: string)
  datatype Account = Account(url: string)

  /** The fields of a remote post the normaliser reads. */
  datatype Status = Status(url: string, account: Account, content: string,
                           createdAt: DateTime, tags: seq<Tag>)

  datatype Bookmark = Bookmark(url: string, title: string, description: string,
                               creationTime: DateTime, tags: seq<string>)

  const TitlePrefix: string := "toot by "

  /** The author's profile url read back from a derived title, when the title
      has the form the normaliser gives it. */
  function TitleAuthor(title: string): (author: Option<string>)
    ensures author.Some? ==> title == TitlePrefix + author.value
  {
    if |TitlePrefix| <= |title| && title[..|TitlePrefix|] == TitlePrefix
    then Some(title[|TitlePrefix|..])
    else None
  }

  /** Reading the author back undoes prefixing the title. */
  lemma TitleAuthorInverse(author: string)
    ensures TitleAuthor(TitlePrefix + author) == Some(author)
  {
    assert (TitlePrefix + author)[..|TitlePrefix|] == TitlePrefix;
    assert (TitlePrefix + author)[|TitlePrefix|..] == author;
  }

  /** The names of the tags, one per tag, in the remote order. */
  function TagNames(tags: seq<Tag>): (names: seq<string>)
    ensures |names| == |tags|
    ensures forall i :: 0 <= i < |tags| ==> names[i] == tags[i].name
  {
    if tags == [] then [] else [tags[0].name] + TagNames(tags[1..])
  }

  /** One remote post as a `Bookmark`. */
  function Normalize(s: Status): (b: Bookmark)
    ensures TitleAuthor(b.title) == Some(s.account.url)
    ensures |b.tags| == |s.tags| && forall i :: 0 <= i < |s.tags| ==> b.tags[i] == s.tags[i].name
    ensures b.url == s.url && b.description == s.content && b.creationTime == s.createdAt
  {
    var title := TitlePrefix + s.account.url;
    assert title[..|TitlePrefix|] == TitlePrefix && title[|TitlePrefix|..] == s.account.url;
    Bookmark(s.url, title, s.content, s.createdAt, TagNames(s.tags))
  }

  /** The list comprehension: one `Bookmark` per fetched post, in fetch order. */
  function NormalizeAll(statuses: seq<Status>): (bookmarks: seq<Bookmark>)
    ensures |bookmarks| == |statuses|
    ensures forall i :: 0 <= i < |statuses| ==> bookmarks[i] == Normalize(statuses[i])
  {
    if statuses == [] then [] else [Normalize(statuses[0])] + NormalizeAll(statuses[1..])
  }

  /** Normalising the posts of several pages is normalising page by page. */
  lemma NormalizeAllAppend(a: seq<Status>, b: seq<Status>)
    ensures NormalizeAll(a + b) == NormalizeAll(a) + NormalizeAll(b)
  {
  }

  /** Two posts by different authors never share a title. */
  lemma TitlesIdentifyAuthors(s: Status, t: Status)
    requires s.account.url != t.account.url
    ensures Normalize(s).title != Normalize(t).title
  {
  }
}
