# FreeFeed account backup: download pipeline model

This project models the download pipeline of a FreeFeed backup tool. The tool logs in to a
FreeFeed server, pages through the account's posts timeline and fetches the full version of
every post whose likes or comments were cut short. It then downloads every userpic and
attachment. After each page and after each post it writes the collected data as JSON files
into the account's data folder. A run that is stopped can therefore be resumed, and a run that
finished does nothing when started again.

The model covers the two entry points and the path derivation of `src/writer.js`:

- **`Download`** models `src/download.js`, the current entry point. It keeps one file per
  collection (`users`, `comments`, `attachments`, `posts`) plus a `timeline.json` that holds
  only the last-page flag.
- **`Legacy`** models `src/index.js`, the older entry point. It keeps the whole timeline in one
  `timeline.json`.
- **`Writer`** models `writeAPIData` of `src/writer.js`: how it derives the data-folder path
  from the server URL. Both entry points call `utils.writeAPIData` instead, whose source is not
  part of this model.

What the other modules hold:

- **`Merge`**: the insert-or-overwrite-by-id rule every stage uses.
- **`Timelines`**: the page merge, the hydration step and the two loops. "Hydration" means
  replacing a post's summary with its full version.
- **`Sessions`**: the session-reuse decision.
- **`Assets`**: the URL worklists and the skip-if-present download loop.

How the model is built:

- **Data on disk.** The disk is an immutable value. Every stage returns the new disk.
- **Checkpoints.** Each loop also returns the disk after every complete checkpoint (all the
  writes for one page, or for one post), as a sequence. So the contracts can say what a run
  stopped between two checkpoints has left on disk. A stop in the middle of one checkpoint's
  writes is not modelled.
- **Things outside the program.** The server, the asset store and the session-validity check
  are function parameters:
  - `page(offset)` is the timeline page at that offset;
  - `fullPost(id)` is the full post response;
  - `asset(url)` is the file's bytes;
  - `pathOf(url)` is the file's local path;
  - `isValidSession` is the validity check.
- **Missing files.** A file that was never written reads as an empty object, so a missing
  collection is empty and a missing flag is not `true`.

## Model

| member | source | states |
|---|---|---|
| Merge.UpsertOverlays | src/download.js:90-101 | The contract of `Merge.Upsert`, the `forEach` that writes `collection[record.id] = record`. Writing records over a collection by id never loses a key, leaves ids no record carries unchanged, and leaves every id holding the last record that carries it. |
| Merge.UpsertConcat | src/download.js:86-101 | Writing two lists of records one after the other gives the same collection as writing their concatenation, so page after page is one write of all records in order. |
| Merge.OverlaysUnique | src/download.js:90-101 | These three facts determine the resulting collection completely. |
| Merge.Enumerate | src/download.js:117 | The enumeration of a collection's ids (standing in for `Object.values`) lists every id exactly once. |
| Sessions.Authenticate | src/download.js:31-49 | The stored session is reused without a request exactly when it exists and is valid. Otherwise the fetched session is stored if it is valid and rejected if it is not. |
| Sessions.StoredSessionIsReused | src/download.js:31-45 | After a fetched session has been stored, the next run reuses it whatever the identity request would answer. |
| Timelines.MergePageOverlays | src/download.js:89-101 | The contract of `Timelines.MergePage`. One page merge takes the page's last-page flag and writes the page's posts, users, comments and attachments over the collections by id. |
| Timelines.MergeAll | src/download.js:86-110 | Merging no pages changes nothing. After any pages the last-page flag is that of the last page. |
| Timelines.MergeAllOverlays | src/download.js:86-110 | Merging a run of pages writes all of their records over the starting collections by id, in order: no key is lost and the last record wins. |
| Timelines.MergeAllKeys | src/download.js:86-101 | After a run of pages each collection holds the ids it started with plus every id the pages list. |
| Timelines.MergeAllIsUpsert | src/download.js:86-110 | Merging a run of pages equals one insert-or-overwrite of the concatenated records in each collection. |
| Timelines.MergePageKeepsWellKeyed | src/download.js:90-92 | A page merge stores each listed post under its own id, so the posts collection keeps every summary under its own id. |
| Timelines.MergeAllKeepsWellKeyed | src/download.js:86-110 | The same holds across any number of pages. |
| Timelines.Paginate | src/download.js:86-110 | The loop runs until a page says last page (or the fuel runs out). Each page is requested at the number of post ids held. After each page the save function receives exactly the timeline merged so far. Every page before the last says not-last. |
| Timelines.PaginationStarts | src/download.js:86-88 | A run that starts short of the last page with fuel left makes at least one request. The first request asks for the offset equal to the number of posts it started with. |
| Timelines.SavedAfterPagesCollapse | src/download.js:105-109 | With a save that overwrites everything it writes, the disk after page `i` is the timeline of the first `i + 1` pages saved over the disk the run started with. |
| Timelines.HydrateAll | src/download.js:130-141 | Hydration never changes the last-page flag. |
| Timelines.HydrateAllPosts | src/download.js:130-132 | Hydration only adds or overwrites the hydrated ids, leaves other posts unchanged, and stores each hydrated id as the whole full-post response. |
| Timelines.HydrateStepKeys | src/download.js:131-141 | The contract of `Timelines.HydrateStep`. One hydration step adds to the users, comments and attachments exactly the ids of the response's records. It adds the post's id to the posts and takes exactly that id out of the selection (`Timelines.Selection`, the filter at lines 117-119). |
| Timelines.HydrateAllCollections | src/download.js:130-141 | Hydration never drops a user, comment or attachment key. Every user, comment and attachment of every fetched response ends up in its collection. |
| Timelines.HydrationConverges | src/download.js:117-132 | When every summary is stored under its own id, hydrating the whole selection keeps the post keys and leaves nothing that needs hydration. |
| Timelines.SelectedPostsCoverSelection | src/download.js:117-119 | When every summary is stored under its own id, the posts the enumeration of the selection names carry exactly the selected ids. |
| Timelines.SavedAfterPostsCollapse | src/download.js:144-147 | With an overwriting save, the disk after post `i` is the timeline hydrated through that post saved over the disk the pass started with. |
| Timelines.Hydrate | src/download.js:117-148 | The selection is every summary with omitted comments or likes, each fetched once. After each post the save function receives the timeline hydrated so far. The result is that of hydrating the whole selection. |
| Assets.UserpicUrls | src/download.js:155-160 | The userpic worklist holds the picture URL of every user that has a non-empty one, and nothing else. |
| Assets.UserpicUrlsConcat | src/download.js:156-160 | The worklist of a concatenation is the concatenation of the worklists. |
| Assets.UserpicUrlsOfOne | src/download.js:157-159 | One user contributes its picture URL when that is non-empty, and nothing otherwise. With the concatenation lemma this fixes the worklist entry by entry, in the users' order. |
| Assets.AttachmentUrlsOf | src/download.js:167-172 | An attachment contributes its non-empty `url` first, then its non-empty `thumbnailUrl` when that differs from `url`. It contributes at most two URLs, and never the same one twice. |
| Assets.AttachmentUrls | src/download.js:165-173 | The attachment worklist holds every URL contributed by any attachment, and nothing else. |
| Assets.AttachmentUrlsConcat | src/download.js:166-173 | The worklist of a concatenation is the concatenation of the worklists, so a URL two attachments share is listed once for each. |
| Assets.AttachmentUrlsOfOne | src/download.js:167-172 | One attachment contributes exactly its own URLs. With the concatenation lemma this fixes the worklist entry by entry, in the attachments' order. |
| Assets.SkipKeepsPrefix | src/download.js:184 | A URL whose path is already present is skipped without changing the files or the fetched list, and the description of the work done moves on by one URL. |
| Assets.FetchKeepsPrefix | src/download.js:184-187 | A URL whose path is missing is fetched and written at that path, and the description of the work done moves on by one URL. |
| Assets.DownloadFiles | src/download.js:181-190 | Files already present are never rewritten. Afterwards every worklist path is present. The URLs fetched are one per path that was missing, each written with its fetched bytes. |
| Assets.DownloadedTwice | src/download.js:163-176 | Two downloads in a row, the second over the files the first left, act as one download of both worklists. Together they fetch one URL per path missing before the first, and write each with its fetched bytes. |
| Download.SaveCollections | src/download.js:144-147 | The four collection files, read back through `Download.Stored` (the reading of the five files at lines 61-71), give the in-memory collections. The flag file, the session and the assets are unchanged. |
| Download.Checkpoint | src/download.js:105-109 | All five files, read back through `Download.Stored`, give exactly the in-memory timeline, and `timeline.json` holds its last-page flag, so the next run sees the flag `true` exactly when the last page was reached. The session and the assets are unchanged. |
| Download.AuthenticateDisk | src/download.js:30-50 | A valid stored session is reused with no request and no write. A valid fetched session is written to `session.json`. A rejected login writes nothing. |
| Download.CheckpointsCollapse | src/download.js:105-109 | Because every checkpoint overwrites all five files, the disk after page `i` is the checkpoint of the first `i + 1` pages over the starting disk. The final disk is the checkpoint of the returned timeline. |
| Download.ResumeProgresses | src/download.js:79-88 | With fuel, a partial resume requests at least one page, the first at the number of stored posts, and keeps every stored post id. |
| Download.GetPostsTimeline | src/download.js:52-114 | A stored flag of `true` returns the stored timeline with no request. Otherwise the run resumes from the stored posts and pages from offset = number of stored posts, checkpointing after every page. With fuel it makes at least one request and keeps every stored post. |
| Download.PartialResumeKeepsOnlyPagedCollections | src/download.js:53-81 | What the resume start (`Download.ResumeFrom`: not last page, the stored posts, empty users, comments and attachments) leads to once pages are merged over it. A partial resume keeps the stored posts but only those users, comments and attachments that the fetched pages list. A stored user that no fetched page lists is gone from `users.json` after the first checkpoint. |
| Download.HydratePosts | src/download.js:116-152 | With nothing selected it returns the timeline as it is and writes nothing. Otherwise it fetches each selected post once and writes the four collection files after every post. It never touches `timeline.json`. |
| Download.ValuesOf | src/download.js:156 | `Object.values` of a collection (users here, attachments at line 166). It returns the records in an enumeration order of the ids, each id exactly once, so every record appears exactly as often as an id holds it. |
| Download.UserpicsCoverUsers | src/download.js:156-160 | The userpic worklist built from `Object.values(users)` lists the picture of every user that has one, and every URL it lists is the picture of some user. |
| Download.AttachmentUrlsCoverAttachments | src/download.js:165-173 | The attachment worklist built from `Object.values(attachments)` lists every URL of every attachment, and every URL it lists comes from some attachment. |
| Download.DownloadUserpics | src/download.js:155-163 | The userpic half: its worklist is exactly the users' non-empty pictures, and the download over it behaves as `downloadFiles` promises. |
| Download.DownloadAttachments | src/download.js:165-176 | The attachment half: its worklist is exactly the attachments' URLs, and the download over it behaves as `downloadFiles` promises. |
| Download.DownloadUserpicsAndAttachments | src/download.js:154-179 | Only asset files change, and existing files keep their bytes. Every userpic and attachment URL of the timeline ends with a file, and every URL listed or fetched is a userpic or an attachment URL of the timeline. The paths fetched over both worklists are exactly the worklist paths missing at the start, each fetched once and written with its fetched bytes. |
| Download.PaginationStage | src/download.js:194 | The stage is the run `getPostsTimeline` makes (`Download.PagedRun`: the stored timeline with no request when the flag is `true`, otherwise the pages requested from the resume point with a checkpoint after each). It finishes exactly when the returned timeline says last page, and then the disk holds that timeline with the flag set. When the fuel runs out, the disk is the checkpoint of the last page fetched (src/download.js:105-109), or the disk as it was when no page was fetched. Keying of stored posts by their own id is preserved. |
| Download.HydrationStage | src/download.js:195 | The stage is `hydratePosts` over the timeline's selection (`Timelines.HydratedBy`: each selected post fetched once and merged in that order). The disk keeps holding the timeline that hydration returns. When the posts were keyed by their own ids, nothing is left to hydrate. |
| Download.Archive | src/download.js:192-197 | A rejected login leaves the disk unchanged and requests no page. Otherwise the paged timeline is the run `getPostsTimeline` makes on the disk after login. The run is unfinished exactly when that timeline does not say last page, and it then leaves the checkpoint of the last page fetched over the disk after login (or that disk, with no page fetched). A completed run's timeline is that timeline hydrated over its selection, in the order returned. It leaves that timeline on disk with its flag set and a file for every userpic and attachment URL. Every URL fetched is a userpic or an attachment URL of it. When the stored posts were keyed by their own ids, it also leaves nothing to hydrate. Asset files present at the start keep their bytes. The URLs fetched are one per asset path that is new, each written with its fetched bytes. |
| Legacy.GetPostsTimeline | src/index.js:47-93 | A stored last-page timeline is returned with no request. A stored partial timeline crashes on the undeclared `downloadedPosts` before any request, leaving the disk as it was. With no stored timeline the run pages from empty and checkpoints the whole timeline after every page. |
| Legacy.RerunAfterCrash | src/index.js:56-65 | After the crash the next run crashes the same way with no request, so a partial download never progresses. |
| Legacy.HydratePosts | src/index.js:95-122 | There is no early return. With nothing selected, nothing is fetched or written. Otherwise the whole timeline is written after every hydrated post. |
| Legacy.Archive | src/index.js:124-130 | A rejected login leaves the disk unchanged. An accepted login crashes exactly when a partial timeline is stored, with no request and nothing written but the session. Otherwise the paged timeline is the run `getPostsTimeline` makes (`Legacy.PagedRun`). The run is unfinished exactly when that timeline does not say last page, and it then leaves `timeline.json` holding the paged timeline (src/index.js:88) over the disk after login, or that disk with no page fetched. A completed run's timeline is that timeline hydrated over its selection, in the order returned; `timeline.json` ends holding it with its flag set, and `user.json` holds the session the login settled on. |
| Writer.FindSeparator | src/writer.js:9 | It finds the first `//` at or after a position, or reports that there is none. |
| Writer.Split | src/writer.js:9 | `split('//')` gives at least one piece, and no piece contains `//`. There is one piece exactly when there is no `//`, and the first piece runs up to the first `//`. |
| Writer.SplitJoin | src/writer.js:9 | Joining the pieces of `split('//')` with `//` gives the input back. |
| Writer.ServerFolder | src/writer.js:9 | `split('//')[1]` is undefined exactly when the server has no `//`. Otherwise it is the text after the first `//` up to the next `//` or the end. |
| Writer.WriteApiData | src/writer.js:8-15 | With no `//` in the server nothing is written. Otherwise the directory is created and then the file is written at repo root / data folder / server folder / username / file. |

## Left out

- Pagination loops (in both entry points): the source loops until a page says last page. The
  model stops after `fuel` pages and reports `FuelExhausted`. A server that never says last page
  is therefore not modelled as a run that never ends. The hydration and download loops run over
  finite worklists and need no bound.
- Console output, progress messages, and the config and credential checks at start-up: they
  change no data.
- The `session.users.statistics.posts` read (src/download.js:83, src/index.js:67): the model
  takes every session to have that shape. A session without `users.statistics` makes the source
  throw a TypeError before the first page, which the model does not represent.
- Failed requests and writes: every request is taken to answer and every write to succeed. In
  the source only a transport error rejects the request promise (`req.on('error', reject)`,
  src/request.js:21). A body that is not JSON makes `JSON.parse` throw inside the `'end'`
  listener (src/request.js:16-19): that promise never settles, and the process dies of an
  uncaught exception. A page without a `posts` array throws (src/download.js:90). Each of these
  ends the run with the files as the last complete checkpoint left them.
- The calls into `src/api.js` do not match its functions, and the model uses the intended
  `page(offset)`, `fullPost(id)` and `asset(url)` instead:
  - `retrievePosts(offset)` (src/api.js:12) is called as `retrievePosts(session, offset)`
    (src/download.js:88, src/index.js:72), so the session object lands in the offset;
  - `retrieveFullPost(post)` (src/api.js:19) is called with the session first
    (src/download.js:131, src/index.js:105), so `post.id` is read from the session;
  - `retrieveAsset(url)` (src/api.js:26) is called with the session first (src/download.js:185),
    and it calls `request.binary` (src/api.js:28), which `src/request.js` does not export
    (lines 34-37).
- A stop in the middle of one checkpoint's writes (between two of the five files written at
  src/download.js:105-109, or of the four at lines 144-147) is not modelled. The traces hold the
  disk after each complete checkpoint only.
- Sessions.Authenticate: a missing `session.json` is taken as no stored session. The source
  reads it as `{}` and passes that to `isValidSession` (src/download.js:31-33). The model assumes
  that check rejects `{}`.
- Writer.WriteApiData: with no `//` in the server it returns `None` (nothing written). In the
  source `path.resolve` throws a TypeError on the `undefined` folder (src/writer.js:9-10), which
  ends the run. The model does not represent the run ending.
- `utils.js`, `api.js` and `request.js` are not part of this model. Their behaviour comes in
  through the parameters listed above.
  - `readStoredAPIData` is taken to return `{}` for a missing file.
  - `assetFileExists`/`writeAssetsData` are taken to agree on `pathOf(url)`.
- The insertion order of JavaScript object keys is not modelled. `Merge.Enumerate` picks an
  arbitrary duplicate-free order, and every contract holds for every order.
- Paths: `path.resolve` normalisation (`..`, absolute segments, empty segments) is not modelled.
  `Writer.WriteApiData` returns the path as its segments.
- Argument passing: in `main`, `downloadUserpicsAndAttachments` receives `timeline` rather than
  `full`. `hydratePosts` mutates and returns the same object, so the two are the same. The model
  passes the hydrated timeline.
- Feeds other than the account's own posts timeline, the build and release scripts, and disks
  edited by hand are not modelled.
- Timelines.HydrationConverges: stated only when every stored summary sits under its own id.
  The source stores a response under the id of the summary, wherever that summary was stored.
  The page merge always keeps this keying, but a hand-edited `posts.json` could break it.
- Timelines.Hydrate: its post keys and nothing-left-to-hydrate facts carry the same own-id condition.
- Download.HydratePosts: the same own-id condition.
- Legacy.HydratePosts: the same own-id condition.
- Hydration stores the whole `retrieveFullPost` response under the post's id, not the post
  inside it. The model follows the code.
- Download.Archive: its nothing-left-to-hydrate fact carries the same own-id condition.
- Assets.DownloadFiles: states that one URL is fetched per missing path, not that it is the
  first URL in worklist order with that path.
- Timelines.HydrateAll: the model states which user, comment and attachment ids hydration adds,
  not which record an id ends up holding when two responses list it. The page merge has this
  fact (`Timelines.MergeAllIsUpsert`); hydration does not.

## Findings

| source | as written | input that shows it | evidently intended | confidence | as-written member | corrected member |
|---|---|---|---|---|---|---|
| src/index.js:63 | A partial stored timeline is resumed by assigning to the undeclared `downloadedPosts`, which throws a ReferenceError before any page is requested. | `timeline.json` holding a timeline whose `isLastPage` is `false` (any interrupted run). | Resume from the stored posts (`timeline.posts = storedTimeline.posts`), as `src/download.js:79` does. | high, not executed | Legacy.RerunAfterCrash | Download.GetPostsTimeline |
