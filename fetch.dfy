/** The remote bookmark source and `get_bookmarks`: with a stored cursor, the
    page at the cursor followed by every newer page up to the first empty one;
    without one, the whole collection. */
module Fetch {
  import opened Util
  import opened Json
  import opened Bookmarks

  type Page = seq<Status>

  /** What the remote account answers. `newMinId` is the `min_id` the most
      recent bookmark page reports; `allPages` are the pages `fetch_remaining`
      walks from the first page to the end; `pagesSince(c)` is the page
      `bookmarks(min_id=c)` returns followed by the successive results of
      `fetch_previous`, beyond whose end `fetch_previous` yields no posts. */
  datatype Remote = Remote(newMinId: int, allPages: seq<Page>, pagesSince: Json -> seq<Page>)

  /** The page with index `i` of a chain: the empty page past its end. */
  function PageAt(chain: seq<Page>, i: nat): Page
  {
    if i < |chain| then chain[i] else []
  }

  /** The posts of a chain of pages, page after page, stopping at the first
      empty page. */
  function Accumulated(chain: seq<Page>): seq<Status>
  {
    if chain == [] || chain[0] == [] then [] else chain[0] + Accumulated(chain[1..])
  }

  /** The index of the first empty page, or the length of the chain. */
  function FirstEmpty(chain: seq<Page>): (k: nat)
    ensures k <= |chain|
    ensures k < |chain| ==> chain[k] == []
    ensures forall j :: 0 <= j < k ==> chain[j] != []
  {
    if chain == [] || chain[0] == [] then 0 else 1 + FirstEmpty(chain[1..])
  }

  /** The accumulated posts are exactly the pages before the first empty one. */
  lemma {:induction false} AccumulatedIsPrefix(chain: seq<Page>)
    ensures Accumulated(chain) == Concat(chain[..FirstEmpty(chain)])
  {
    if chain == [] || chain[0] == [] {
    } else {
      AccumulatedIsPrefix(chain[1..]);
      var k := FirstEmpty(chain);
      assert chain[..k][1..] == chain[1..][..k - 1];
    }
  }

  /** Whatever follows an empty page is never fetched. */
  lemma {:induction false} AccumulatedIgnoresLaterPages(chain: seq<Page>, k: nat, rest: seq<Page>)
    requires k < |chain| && chain[k] == []
    ensures Accumulated(chain[..k + 1] + rest) == Accumulated(chain)
  {
    if k > 0 {
      assert chain[0] == (chain[..k + 1] + rest)[0];
      assert (chain[..k + 1] + rest)[1..] == chain[1..][..k] + rest;
      AccumulatedIgnoresLaterPages(chain[1..], k - 1, rest);
    } else {
      assert (chain[..1] + rest)[0] == [];
    }
  }

  /** The `min_id` branch of `get_bookmarks`: take the page at the cursor, then
      keep asking for the previous (newer) page and appending it until a page
      comes back empty. */
  method FetchSince(chain: seq<Page>) returns (statuses: seq<Status>)
    ensures statuses == Accumulated(chain)
  {
    var i := 0;
    var page := PageAt(chain, 0);
    statuses := page;
    while page != []
      invariant i <= |chain| && page == PageAt(chain, i)
      invariant page != [] ==> Accumulated(chain) == statuses + Accumulated(chain[i + 1..])
      invariant page == [] ==> Accumulated(chain) == statuses
      decreases |chain| - i
    {
      if i + 1 < |chain| {
        assert chain[i + 1..][1..] == chain[i + 2..];
      }
      i := i + 1;
      page := PageAt(chain, i);
      statuses := statuses + page;
    }
  }

  /** The posts `get_bookmarks` normalises, as a function of the stored state. */
  function Fetched(remote: Remote, minId: Option<Json>): seq<Status>
  {
    if IsSet(minId) then Accumulated(remote.pagesSince(minId.value)) else Concat(remote.allPages)
  }

  /** `get_bookmarks`: an unset (missing or falsy) cursor fetches every page;
      a set one fetches the pages newer than it; every post becomes a
      `Bookmark`, in fetch order. */
  method GetBookmarks(remote: Remote, minId: Option<Json>) returns (bookmarks: seq<Bookmark>)
    ensures bookmarks == NormalizeAll(Fetched(remote, minId))
    ensures !IsSet(minId) ==> bookmarks == NormalizeAll(Concat(remote.allPages))
    ensures IsSet(minId) ==> bookmarks == NormalizeAll(Accumulated(remote.pagesSince(minId.value)))
  {
    var statuses: seq<Status>;
    if !IsSet(minId) {
      statuses := Concat(remote.allPages);
    } else {
      statuses := FetchSince(remote.pagesSince(minId.value));
    }
    bookmarks := NormalizeAll(statuses);
  }
}
