# betulon: bookmark mirroring, modelled in Dafny

betulon is a batch job that mirrors the posts ("toots") a user has bookmarked on a
Mastodon account into a local SQLite database. Each run does the following:

1. It reads a cursor (`min_id.json`) left by the previous run.
2. It asks the server for the `min_id` of the newest bookmark.
3. It fetches the bookmarks and turns each post into a `Bookmark` record:
   - the url;
   - the title `"toot by " + author profile url`;
   - the post body as the description;
   - the creation time;
   - the tag names.
4. It inserts the records into two tables, in reverse of the fetched order:
   - one post row per bookmark, visible, with an identifier the engine generates;
   - one tag row per tag in `("mastodon_bookmark",) + tags`, pointing at that post.
5. It writes the new cursor.

When there is a cursor, the fetch starts from the page at the cursor. It then follows
"previous" (newer) pages until one comes back empty. Without a cursor, it walks every page.

The stored order is oldest first only when the fetched list is newest first, as in the
walk over every page. In a run with a cursor, each newer page is appended after the page
at the cursor. When the new bookmarks span several non-empty pages, the reversal therefore
stores the newer page's posts before the older page's.

The model has seven modules, one per file:

- `Util` (util.dfy): `Option`, reversal and concatenation of sequences.
- `Json` (json.dfy):
  - a JSON value;
  - Python's truthiness of a decoded value;
  - `Codec`, the `json.dumps` / `json.loads` pair as two functions, where `loads` may
    fail.
- `Bookmarks` (bookmarks.dfy): the remote post and the `Bookmark` record, and the
  normalisation of one post and of a list of posts.
- `Fetch` (fetch.dfy):
  - the remote account as a value, `Remote`;
  - the page loop of `get_bookmarks` as a method with a loop (`FetchSince`);
  - `get_bookmarks` itself (`GetBookmarks`).
- `Store` (store.dfy):
  - the two tables as a class `Database`, whose fields the insert methods update;
  - the rows a batch adds, as functions;
  - the table invariant: identifiers are fresh and increasing, and every tag row points
    at a post.
- `StateFile` (statefile.dfy):
  - the directory as a class `StateDir` over a map from file name to content;
  - `get_json_state` / `write_json_state` as methods;
  - their pure specification `ReadState`.
- `Sync` (sync.dfy): `cli` as a straight-line method, and the properties that link one
  run to the next.

Three behaviours of the code shape the model:

- `cli` runs once, straight through (src/betulon/main.py:166-170). It reads the cursor,
  fetches, inserts and writes the cursor. It does not re-check the newest id and has no
  retry loop.
- The post body (`content`) is copied unchanged into the description
  (src/betulon/main.py:76), and `Normalize` does the same.
- The whole decoded state document is passed as `min_id`, and only its truthiness picks
  the branch (src/betulon/main.py:63, 166-168). The model does the same.

A failing insert is modelled as the engine refusing a post row (`Database.refuses`).
In the code the exception propagates out of `insert_bookmarks` before `conn.commit()`.
The uncommitted rows are lost with the connection, and `cli` stops before
`write_json_state`. In the model `InsertBookmarks` returns `false` with the tables
unchanged, and `Cli` does not write the cursor.

## Model

| member | source | states |
|---|---|---|
| Bookmarks.TitleAuthor | src/betulon/main.py:75 | Reading the author back from a title: any author it returns is what follows `"toot by "` in the title. This makes it the inverse of title derivation. |
| Bookmarks.TitleAuthorInverse | src/betulon/main.py:75 | Reading the author back from `"toot by " + a` gives exactly `a`. |
| Bookmarks.TagNames | src/betulon/main.py:78 | One name per tag, same length, same order: element i is the name of tag i. |
| Bookmarks.Normalize | src/betulon/main.py:73-78 | Reading the author back from the title gives exactly the post's account url. The tags become the tag names, in order. url, description (`content`) and creation time are copied unchanged. |
| Bookmarks.NormalizeAll | src/betulon/main.py:72-81 | One bookmark per fetched post, in fetch order: element i is the normalisation of post i. |
| Bookmarks.NormalizeAllAppend | src/betulon/main.py:72-81 | Normalising the posts of two page runs joined together equals normalising each run and joining the results. |
| Bookmarks.TitlesIdentifyAuthors | src/betulon/main.py:75 | Posts by different authors get different titles. |
| Json.FalsyExactly | src/betulon/main.py:63 | Python's `not`: a decoded document is falsy exactly when it is `None`, `False`, `0`, `""`, `[]` or `{}`. Every other document is truthy. |
| Json.UnsetExactly | src/betulon/main.py:63 | `if not min_id` takes the full-fetch branch exactly when no state was read or the state is one of the six falsy documents. |
| Fetch.FirstEmpty | src/betulon/main.py:69-71 | The index of the first empty page of a chain: every earlier page is non-empty, and the page there (if any) is empty. |
| Fetch.AccumulatedIsPrefix | src/betulon/main.py:67-71 | What the page loop collects is the concatenation of the pages before the first empty page. |
| Fetch.AccumulatedIgnoresLaterPages | src/betulon/main.py:69-71 | Pages after an empty page never contribute: replacing everything after it leaves the result unchanged. |
| Fetch.FetchSince | src/betulon/main.py:67-71 | The loop (start page, then `fetch_previous` appended until an empty page) returns exactly the accumulated posts of the chain. |
| Fetch.GetBookmarks | src/betulon/main.py:60-81 | With no cursor or a falsy one, the result is every page normalised. With a truthy cursor, it is the posts of the chain starting at that cursor, normalised. |
| Util.Reversed | src/betulon/main.py:126 | `reversed(bookmarks)` has the same length as its input. |
| Util.ReversedIndex | src/betulon/main.py:126 | Position i of the reversal holds the element i places from the end of the input. |
| Store.PostRowFor | src/betulon/main.py:131-137 | The parameters of one post insert carry the given identifier and visibility 1, and the bookmark's url, title, description and creation time. With the bookmark's tags they give back the bookmark unchanged. |
| Store.PostRowsAt | src/betulon/main.py:129-138 | The bookmark at position i of the batch gets a post row with identifier `firstId + i`. That row carries its url, title, description and creation time, with visibility 1. |
| Store.TagRowsForPointAt | src/betulon/main.py:144-145 | Every tag row written for one post references that post's identifier. |
| Store.TagsOfPost | src/betulon/main.py:139-145 | The tag rows of a batch that reference the post written i-th are exactly `extraTags + tags` of that bookmark, in order. |
| Store.TagsOfPostInTable | src/betulon/main.py:139-145 | In the whole tag table after a batch (old rows included, under the table invariant), the tags of the post written i-th are exactly `extraTags + tags` of that bookmark. |
| Store.TagRowsReferenceBatch | src/betulon/main.py:139-145 | Every tag row a batch adds references an identifier the same batch's post rows received. |
| Store.InsertionReversesInput | src/betulon/main.py:126-128 | The i-th post row written holds the bookmark i places from the end of the input. Input `[B3, B2, B1]` is stored as B1, B2, B3, with increasing identifiers. This is oldest first only when the input is newest first. |
| Util.ReversedAppend | src/betulon/main.py:126 | Reversing a concatenation reverses each part and puts the second part first. |
| Sync.IncrementalRunStoresNewerPageFirst | src/betulon/main.py:67-71 | In a run with a cursor whose chain is a non-empty page followed by a newer page, the batch is written as the newer page reversed, then the older page reversed. So pages `[s2, s1]` then `[s4, s3]` are stored as s3, s4, s1, s2. |
| Store.AcceptsAllIffComplete | src/betulon/main.py:126-146 | Take a point where processing stops, with every earlier row accepted and the row at it (if any) refused. Then the whole batch is accepted exactly when that point is the end of the batch. |
| Store.BatchKeepsTablesValid | src/betulon/main.py:126-146 | Appending a batch's rows keeps the table invariant: identifiers are below the next identifier and strictly increasing, and every tag row references an existing post. |
| Store.Database.InsertPost | src/betulon/main.py:129-141 | One post insert with `RETURNING ID`: it appends the row for the next identifier, returns that identifier and advances the counter. The tag table is unchanged and the table invariant is kept. |
| Store.Database.InsertTags | src/betulon/main.py:142-145 | For a post that exists, the inner loop appends one row per name, in order, each referencing that post. The post table is unchanged and the table invariant is kept. |
| Store.Database.InsertOne | src/betulon/main.py:129-145 | One iteration of the outer loop. If the engine accepts the post row, it appends the row, then the rows for `extraTags + tags` under the new identifier. If the engine refuses, nothing changes. The table invariant is kept. |
| Store.Database.ExecuteAll | src/betulon/main.py:125-145 | The statements for a batch stop after `done` bookmarks: all of them if every post row is accepted, otherwise just before the first refused one. The tables hold exactly the rows of that accepted prefix (as in the open transaction when the error is raised), the counter has grown by `done`, and the table invariant is kept. |
| Store.Database.InsertBookmarks | src/betulon/main.py:105-146 | Succeeds exactly when every row of the reversed batch is accepted. Then exactly `len(bookmarks)` post rows and their tag rows are appended in reverse input order, and earlier rows are untouched. Otherwise the tables are as before. The table invariant is kept either way. |
| Sync.EmptyDeltaAddsNothing | src/betulon/main.py:126-146 | A run that fetches no posts inserts no post rows and no tag rows, and cannot fail. |
| StateFile.ReadState | src/betulon/main.py:24-44 | A state is returned exactly when the file exists and parses, and it is the parsed value. The file is left exactly when a state is returned. No other file changes. Result: a missing file changes nothing; a file whose text `json.loads` rejects is removed. A file holding `null` parses to `Some(Null)` and is kept: `Some(Null)` stands for the `None` Python returns for it, which is falsy like a missing state. |
| StateFile.ReadIsIdempotent | src/betulon/main.py:24-44 | A second read returns the same state and leaves the same files as the first. |
| StateFile.ReadAfterWrite | src/betulon/main.py:38-50 | If the decoder undoes the encoder on a value, reading after writing that value returns it and keeps the file. |
| StateFile.StateDir.GetJsonState | src/betulon/main.py:24-44 | The state returned and the files left are those `ReadState` gives for the files before the call. |
| StateFile.StateDir.WriteJsonState | src/betulon/main.py:47-50 | The file is created or overwritten with the encoded value. No other file changes. |
| Sync.Cli | src/betulon/main.py:166-170 | One run reads the cursor, captures the new cursor, fetches and inserts. It succeeds exactly when every insert is accepted. Then the tables hold the fetched bookmarks' rows, the identifier counter has grown by their number, and `min_id.json` holds `{"min_id": newMinId}`. Otherwise the tables are unchanged and the cursor file is as the read left it (no cursor write). |
| Sync.CursorValueIsSet | src/betulon/main.py:170 | The document `{"min_id": n}` is truthy for every n, 0 included, so it always selects the incremental branch. Different ids give different documents. |
| Sync.NextRunFetchesSinceCursor | src/betulon/main.py:166-170 | After a run writes its cursor (with an encoder the decoder undoes), the next run reads that cursor back, and its fetch is the incremental one starting at that cursor. |
| Sync.UnreadableCursorMeansFullSync | src/betulon/main.py:63-64 | A missing or malformed cursor file leaves no file behind and makes the run fetch every page. |

## Left out

- The Mastodon client is not modelled. This covers `masto.bookmarks`, `fetch_remaining`, `fetch_previous` and the `_pagination_prev` field read by `get_new_min_id`, all network calls into a library that is not part of this model. The account's answers are the fields of `Fetch.Remote`:
  - `newMinId` stands for `get_new_min_id`;
  - `allPages` stands for what `fetch_remaining` collects;
  - `pagesSince` stands for the page at a cursor and the successive `fetch_previous` pages.
- Sync.Cli: the pages are fixed for the whole run. So the model cannot observe that `cli` captures the new cursor before the fetch; the method still performs the steps in that order.
- Past the last page the model assumes `fetch_previous` yields an empty page. The library's actual answer there (possibly `None`) is not modelled.
- How the client library turns the decoded state document into the `min_id` request parameter is not modelled.
- Of the request `get_bookmarks` sends for the first page, only its role in the full walk is kept.
- The `add_connection` decorator, `sqlite3.connect` / `close`, the `DB_PATH` variable and the SQL text are not modelled: they are resource plumbing and engine specifics.
- The branch `if not conn and _path` is unreachable because the decorator always supplies a connection, so it is not modelled.
- The decorator reading a `path` keyword that the function names `_path` is not modelled.
- The model assumes every post insert the engine accepts returns its identifier. A schema that skips a row silently (`ON CONFLICT IGNORE`, a `RAISE(IGNORE)` trigger) makes `fetchone()` return `None`, and then the `if row:` guard writes no tag rows for that bookmark. That case is not modelled.
- A failing tag-row insert is not modelled. Only a refused post-row insert is, through `Database.refuses`.
- Store.Database.InsertBookmarks: identifiers are modelled as a counter starting at 1 that a discarded batch does not advance. The engine's actual identifier allocation is not modelled.
- Logging, the log file handler, the environment variables and the construction of the `Mastodon` client in `cli` are not modelled: they are configuration and I/O.
- JSON text is abstract. `Codec` stands for `json.dumps` / `json.loads`, with the round trip a precondition of the lemmas that need it.
- Floating-point JSON numbers are not modelled.
- Datetime formatting and time zones are not modelled: a creation time is an opaque record that is copied.
- File content is modelled as decoded text. Two reads of the cursor file raise an exception that `get_json_state` does not catch: a file whose bytes do not decode as text (`UnicodeDecodeError`) and a parse that fails other than with `JSONDecodeError` (e.g. `RecursionError` on deeply nested input). Then the file is neither read nor removed and `cli` stops before fetching, on every later run too. This fourth outcome is not modelled; `ReadState` has only the other three.
- File-system errors other than a missing file are not modelled, e.g. permissions or a failed unlink or write.
