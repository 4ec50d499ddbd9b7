/** `cli`: read the cursor, capture the new cursor, fetch, insert, and only
    then write the new cursor. */
module Sync {
  import opened Util
  import opened Json
  import opened Bookmarks
  import opened Fetch
  import opened Store
  import opened StateFile

  const CursorFile: string := "min_id.json"

  /** The document written as the new cursor. */
  function CursorValue(newMinId: int): Json
  {
    Object(map["min_id" := Number(newMinId)])
  }

  /** The cursor document is truthy for every identifier, zero included, and
      tells identifiers apart. */
  lemma CursorValueIsSet(newMinId: int, other: int)
    ensures IsSet(Some(CursorValue(newMinId)))
    ensures CursorValue(newMinId) == CursorValue(other) ==> newMinId == other
  {
    assert "min_id" in CursorValue(newMinId).fields;
    if CursorValue(newMinId) == CursorValue(other) {
      assert CursorValue(newMinId).fields["min_id"] == CursorValue(other).fields["min_id"];
    }
  }

  /** The bookmarks in the order `insert_bookmarks` writes them, for a run
      that read `state` from the cursor file. */
  function Batch(remote: Remote, state: Option<Json>): seq<Bookmark>
  {
    Reversed(NormalizeAll(Fetched(remote, state)))
  }

  /** In an incremental run the page at the cursor comes first and the newer
      page is appended after it, so reversing the whole list stores the newer
      page's posts before the older page's: with pages `[s2, s1]` then
      `[s4, s3]`, the rows are written for s3, s4, s1, s2. */
  lemma IncrementalRunStoresNewerPageFirst(remote: Remote, cursor: Json, older: Page, newer: Page)
    requires Truthy(cursor) && remote.pagesSince(cursor) == [older, newer] && older != []
    ensures Batch(remote, Some(cursor)) == Reversed(NormalizeAll(newer)) + Reversed(NormalizeAll(older))
  {
    var chain := remote.pagesSince(cursor);
    assert Fetched(remote, Some(cursor)) == older + newer by {
      assert chain[0] == older && chain[1..] == [newer] && chain[1..][1..] == [];
      assert Accumulated(chain[1..]) == newer by {
        if newer != [] {
          assert Accumulated(chain[1..]) == newer + Accumulated([]);
        }
      }
      assert Accumulated(chain) == older + Accumulated(chain[1..]);
    }
    NormalizeAllAppend(older, newer);
    ReversedAppend(NormalizeAll(older), NormalizeAll(newer));
  }

  /** One run of the job. The rows of every fetched bookmark are committed
      and the new cursor is written only if the engine accepts every insert;
      otherwise the tables are as before and the cursor file is as the read
      left it. */
  method Cli(dir: StateDir, db: Database, remote: Remote, json: Codec) returns (ok: bool)
    requires db.Valid()
    modifies dir, db
    ensures db.Valid()
    ensures var read := ReadState(old(dir.files), CursorFile, json.loads);
            var batch := Batch(remote, read.state);
            && (ok <==> AcceptsAll(db.refuses, batch, old(db.nextId)))
            && (ok ==> && db.posts == old(db.posts) + PostRows(batch, old(db.nextId))
                       && db.nextId == old(db.nextId) + |batch|
                       && db.tags == old(db.tags) + TagRows(batch, DefaultExtraTags, old(db.nextId))
                       && dir.files == read.files[CursorFile := json.dumps(CursorValue(remote.newMinId))])
            && (!ok ==> && db.posts == old(db.posts) && db.tags == old(db.tags)
                        && db.nextId == old(db.nextId)
                        && dir.files == read.files)
  {
    var minId := dir.GetJsonState(CursorFile, json);
    var newMinId := remote.newMinId;
    var bookmarks := GetBookmarks(remote, minId);
    ok := db.InsertBookmarks(bookmarks, DefaultExtraTags);
    if !ok {
      return;
    }
    dir.WriteJsonState(CursorValue(newMinId), CursorFile, json);
  }

  /** After a run that wrote its cursor, the next run reads that cursor back
      and fetches only the pages newer than it. */
  lemma NextRunFetchesSinceCursor(files: map<string, string>, newMinId: int, json: Codec, later: Remote)
    requires json.loads(json.dumps(CursorValue(newMinId))) == Some(CursorValue(newMinId))
    ensures var read := ReadState(files[CursorFile := json.dumps(CursorValue(newMinId))], CursorFile, json.loads);
            && read.state == Some(CursorValue(newMinId))
            && Fetched(later, read.state) == Accumulated(later.pagesSince(CursorValue(newMinId)))
  {
    ReadAfterWrite(files, CursorFile, CursorValue(newMinId), json);
    assert "min_id" in CursorValue(newMinId).fields;
  }

  /** A missing or unreadable cursor file means a full fetch of every page,
      and no cursor file is left behind by the read. */
  lemma UnreadableCursorMeansFullSync(files: map<string, string>, json: Codec, remote: Remote)
    requires CursorFile !in files || json.loads(files[CursorFile]).None?
    ensures var read := ReadState(files, CursorFile, json.loads);
            && CursorFile !in read.files
            && Fetched(remote, read.state) == Concat(remote.allPages)
  {
  }

  /** A run that finds nothing new adds no rows. */
  lemma EmptyDeltaAddsNothing(remote: Remote, state: Option<Json>, refuses: PostRow -> bool, firstId: nat)
    requires Fetched(remote, state) == []
    ensures AcceptsAll(refuses, Batch(remote, state), firstId)
    ensures PostRows(Batch(remote, state), firstId) == []
    ensures TagRows(Batch(remote, state), DefaultExtraTags, firstId) == []
  {
  }
}
