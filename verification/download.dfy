/** The current entry point: one JSON file per collection plus a `timeline.json` holding only the
    last-page flag, and the four stages `authenticate`, `getPostsTimeline`, `hydratePosts` and
    `downloadUserpicsAndAttachments` run in that order. */
module Download {
  import opened Options
  import opened Entities
  import opened Merge
  import opened Sessions
  import opened Timelines
  import opened Assets

  /** The account's data folder: `session.json`, `timeline.json` (`{isLastPage}`), `users.json`,
      `comments.json`, `attachments.json`, `posts.json` (`None` when never written), and the
      asset files by path. */
  datatype Disk = Disk(
    session: Option<Session>,
    timeline: Option<bool>,
    users: Option<map<Id, User>>,
    comments: Option<map<Id, Comment>>,
    attachments: Option<map<Id, Attachment>>,
    posts: Option<map<Id, PostEntry>>,
    assets: map<Path, Bytes>)

  /** The network: what each request would return. */
  datatype Api = Api(whoami: Session, page: nat -> Page, fullPost: Id -> FullPost, asset: Url -> Bytes)

  /** The stored timeline `getPostsTimeline` assembles from the five files; a missing file reads as
      an empty object, so a missing collection is empty and a missing flag is not `true`. */
  function Stored(d: Disk): (r: Timeline)
    ensures r.isLastPage <==> d.timeline == Some(true)
    ensures d.posts.None? ==> r.posts == map[]
    ensures d.users.None? ==> r.users == map[]
  {
    Timeline(d.users.GetOr(map[]), d.comments.GetOr(map[]), d.attachments.GetOr(map[]), d.posts.GetOr(map[]),
             d.timeline == Some(true))
  }

  /** The timeline a partial resume starts from: the stored posts only; users, comments and
      attachments start empty. */
  function ResumeFrom(d: Disk): (r: Timeline)
    ensures !r.isLastPage && r.posts == Stored(d).posts
    ensures r.users == map[] && r.comments == map[] && r.attachments == map[]
  {
    Timeline(map[], map[], map[], Stored(d).posts, false)
  }

  /** The four collection files written after every hydrated post. */
  function SaveCollections(d: Disk, tl: Timeline): (r: Disk)
    ensures Stored(r) == tl.(isLastPage := Stored(d).isLastPage)
    ensures r.timeline == d.timeline && r.session == d.session && r.assets == d.assets
  {
    d.(users := Some(tl.users), comments := Some(tl.comments), attachments := Some(tl.attachments), posts := Some(tl.posts))
  }

  /** The five files written after every page: reading them back gives exactly the in-memory
      timeline, `timeline.json` holds the last-page flag, and nothing else on disk changes. */
  function Checkpoint(d: Disk, tl: Timeline): (r: Disk)
    ensures Stored(r) == tl
    ensures r.timeline == Some(tl.isLastPage)
    ensures r.session == d.session && r.assets == d.assets
  {
    SaveCollections(d, tl).(timeline := Some(tl.isLastPage))
  }

  /** The outcome of `authenticate` on the disk: a session (with the disk after it, and whether
      the identity request was made) or the end of the run with nothing written. */
  datatype AuthResult = Authenticated(session: Session, disk: Disk, requested: bool) | Rejected(response: Session)

  function AuthenticateDisk(d: Disk, whoami: Session, isValidSession: Session -> bool): (r: AuthResult)
    ensures d.session.Some? && isValidSession(d.session.value) ==> r == Authenticated(d.session.value, d, false)
    ensures r.Authenticated? ==> isValidSession(r.session)
    ensures r.Authenticated? && r.requested ==> r.session == whoami && r.disk == d.(session := Some(whoami))
    ensures !(d.session.Some? && isValidSession(d.session.value)) ==> (r.Authenticated? ==> r.requested)
    ensures r.Rejected? <==> !(d.session.Some? && isValidSession(d.session.value)) && !isValidSession(whoami)
  {
    match Authenticate(d.session, whoami, isValidSession)
    case Reuse(s) => Authenticated(s, d, false)
    case Store(s) => Authenticated(s, d.(session := Some(s)), true)
    case Reject(response) => Rejected(response)
  }

  /** `getPostsTimeline`. A stored timeline whose flag says last page is returned as stored with no
      request. Otherwise the run resumes from the stored posts alone and pages until a page says
      `isLastPage` (or the model's `fuel` runs out), requesting each page at the number of post ids
      held, and after every page the five files hold exactly the timeline merged so far. */
  method GetPostsTimeline(d: Disk, page: nat -> Page, fuel: nat)
    returns (tl: Timeline, d': Disk, end: PaginationEnd, offsets: seq<nat>, responses: seq<Page>, disks: seq<Disk>)
    ensures end == StoredComplete <==> d.timeline == Some(true)
    ensures end == StoredComplete ==> tl == Stored(d) && d' == d && offsets == [] && responses == [] && disks == []
    ensures end != StoredComplete ==>
      && PaginationTrace(ResumeFrom(d), d, Checkpoint, page, offsets, responses, disks)
      && tl == MergeAll(ResumeFrom(d), responses)
      && |responses| <= fuel
    ensures end == ReachedLastPage <==> end != StoredComplete && tl.isLastPage
    ensures end == FuelExhausted ==> |responses| == fuel
    ensures end != ReferenceError
    ensures forall i :: 0 <= i < |disks| ==> disks[i] == Checkpoint(d, MergeAll(ResumeFrom(d), responses[..i + 1]))
    ensures responses != [] ==> d' == Checkpoint(d, tl)
    ensures responses == [] ==> d' == d
    ensures d.timeline != Some(true) && fuel > 0 ==>
      responses != [] && offsets[0] == |Stored(d).posts| && Stored(d).posts.Keys <= tl.posts.Keys
  {
    if d.timeline == Some(true) {
      return Stored(d), d, StoredComplete, [], [], [];
    }
    var start := ResumeFrom(d);
    tl, d', offsets, responses, disks := Paginate(start, d, Checkpoint, page, fuel);
    end := if tl.isLastPage then ReachedLastPage else FuelExhausted;
    CheckpointsCollapse(d, page, tl, d', offsets, responses, disks);
    ResumeProgresses(d, page, fuel, tl, offsets, responses, disks);
  }

  /** Every checkpoint overwrites all five files, so the disk after page `i` is the checkpoint of
      the first `i + 1` pages over the starting disk, and the last one is the checkpoint of the
      returned timeline. */
  lemma CheckpointsCollapse(d: Disk, page: nat -> Page, tl: Timeline, d': Disk,
                            offsets: seq<nat>, responses: seq<Page>, disks: seq<Disk>)
    requires PaginationTrace(ResumeFrom(d), d, Checkpoint, page, offsets, responses, disks)
    requires tl == MergeAll(ResumeFrom(d), responses) && d' == Prior(d, disks, |disks|)
    ensures forall i :: 0 <= i < |disks| ==> disks[i] == Checkpoint(d, MergeAll(ResumeFrom(d), responses[..i + 1]))
    ensures responses != [] ==> d' == Checkpoint(d, tl)
    ensures responses == [] ==> d' == d
  {
    assert Overwrites(Checkpoint);
    SavedAfterPagesCollapse(ResumeFrom(d), d, Checkpoint, responses);
    if responses != [] {
      assert responses[..|responses|] == responses;
    }
  }

  /** With fuel, a partial resume requests at least one page, the first at the number of stored
      posts, and keeps every stored post id. */
  lemma ResumeProgresses(d: Disk, page: nat -> Page, fuel: nat, tl: Timeline,
                         offsets: seq<nat>, responses: seq<Page>, disks: seq<Disk>)
    requires PaginationTrace(ResumeFrom(d), d, Checkpoint, page, offsets, responses, disks)
    requires tl == MergeAll(ResumeFrom(d), responses) && (tl.isLastPage || |responses| == fuel)
    ensures fuel > 0 ==> responses != [] && offsets[0] == |Stored(d).posts| && Stored(d).posts.Keys <= tl.posts.Keys
  {
    MergeAllKeys(ResumeFrom(d), responses);
    if fuel > 0 {
      PaginationStarts(ResumeFrom(d), d, Checkpoint, page, offsets, responses, disks, fuel);
    }
  }

  /** What a partial resume keeps: the posts of the stored file plus those of the fetched pages,
      but only the users, comments and attachments the fetched pages list. A stored user (or
      comment, or attachment) that no fetched page lists is missing from the file after the
      first checkpoint, even though it was on disk before the run. */
  lemma PartialResumeKeepsOnlyPagedCollections(d: Disk, ps: seq<Page>)
    requires d.timeline != Some(true)
    ensures MergeAll(ResumeFrom(d), ps).posts.Keys == Stored(d).posts.Keys + KeysOf(Summaries(AllPosts(ps)), EntryKey)
    ensures MergeAll(ResumeFrom(d), ps).users.Keys == KeysOf(AllUsers(ps), UserKey)
    ensures MergeAll(ResumeFrom(d), ps).comments.Keys == KeysOf(AllComments(ps), CommentKey)
    ensures MergeAll(ResumeFrom(d), ps).attachments.Keys == KeysOf(AllAttachments(ps), AttachmentKey)
    ensures ps != [] ==> forall k :: k in Stored(d).users && k !in KeysOf(AllUsers(ps), UserKey) ==>
      k !in Stored(Checkpoint(d, MergeAll(ResumeFrom(d), ps))).users
  {
    MergeAllKeys(ResumeFrom(d), ps);
  }

  /** `hydratePosts`. With nothing selected it returns the timeline as it is, fetching and writing
      nothing. Otherwise each selected post is fetched once and its whole response merged, the
      four collection files are written after every post, and `timeline.json` is not touched. */
  method HydratePosts(tl: Timeline, d: Disk, fullPost: Id -> FullPost)
    returns (tl': Timeline, d': Disk, order: seq<Id>, disks: seq<Disk>)
    ensures Selection(tl.posts) == {} ==> tl' == tl && d' == d && order == []
    ensures forall k :: k in order <==> k in Selection(tl.posts)
    ensures forall i, j :: 0 <= i < j < |order| ==> order[i] != order[j]
    ensures forall i :: 0 <= i < |order| ==> order[i] in tl.posts && tl.posts[order[i]].Summary?
    ensures |disks| == |order|
    ensures tl' == HydrateAll(tl, SelectedPosts(tl.posts, order), fullPost)
    ensures forall i :: 0 <= i < |disks| ==>
      disks[i] == SaveCollections(d, HydrateAll(tl, SelectedPosts(tl.posts, order)[..i + 1], fullPost))
    ensures order != [] ==> d' == SaveCollections(d, tl')
    ensures d'.timeline == d.timeline && d'.session == d.session && d'.assets == d.assets
    ensures WellKeyed(tl.posts) ==> tl'.posts.Keys == tl.posts.Keys && Selection(tl'.posts) == {}
  {
    if Selection(tl.posts) == {} {
      return tl, d, [], [];
    }
    tl', d', order, disks := Hydrate(tl, d, SaveCollections, fullPost);
    var ps := SelectedPosts(tl.posts, order);
    assert Overwrites(SaveCollections);
    SavedAfterPostsCollapse(tl, d, SaveCollections, fullPost, ps);
    if order != [] {
      assert ps[..|ps|] == ps;
    }
  }

  /** `Object.values` of a collection: its records in some enumeration order `ks` of its ids, each
      id once, so every record appears exactly as often as an id holds it. */
  method ValuesOf<T>(m: map<Id, T>) returns (ks: seq<Id>, vs: seq<T>)
    ensures |ks| == |vs| == |m|
    ensures forall i :: 0 <= i < |ks| ==> ks[i] in m && vs[i] == m[ks[i]]
    ensures forall i, j :: 0 <= i < j < |ks| ==> ks[i] != ks[j]
    ensures forall k :: k in m <==> k in ks
  {
    ks := Enumerate(m.Keys);
    vs := seq(|ks|, i requires 0 <= i < |ks| => m[ks[i]]);
    assert |ks| == |m| by {
      assert (set k | k in ks) == m.Keys;
      DistinctCardinality(ks);
    }
  }

  /** The userpic worklist built from `Object.values(users)` lists the picture of every user that
      has one. */
  lemma UserpicsCoverUsers(m: map<Id, User>, ks: seq<Id>, vs: seq<User>)
    requires |ks| == |vs| && forall i :: 0 <= i < |ks| ==> ks[i] in m && vs[i] == m[ks[i]]
    requires forall k :: k in m ==> k in ks
    ensures forall k :: k in m && Truthy(m[k].profilePictureLargeUrl) ==>
      m[k].profilePictureLargeUrl.value in UserpicUrls(vs)
    ensures forall u :: u in UserpicUrls(vs) ==> IsUserpicOf(m, u)
  {
    forall u | u in UserpicUrls(vs) ensures IsUserpicOf(m, u) {
      var j :| 0 <= j < |vs| && Truthy(vs[j].profilePictureLargeUrl) && vs[j].profilePictureLargeUrl.value == u;
      assert m[ks[j]] == vs[j];
    }
    forall k | k in m && Truthy(m[k].profilePictureLargeUrl)
      ensures m[k].profilePictureLargeUrl.value in UserpicUrls(vs)
    {
      var j :| 0 <= j < |ks| && ks[j] == k;
    }
  }

  /** The attachment worklist built from `Object.values(attachments)` lists every URL of every
      attachment. */
  lemma AttachmentUrlsCoverAttachments(m: map<Id, Attachment>, ks: seq<Id>, vs: seq<Attachment>)
    requires |ks| == |vs| && forall i :: 0 <= i < |ks| ==> ks[i] in m && vs[i] == m[ks[i]]
    requires forall k :: k in m ==> k in ks
    ensures forall k, u :: k in m && u in AttachmentUrlsOf(m[k]) ==> u in AttachmentUrls(vs)
    ensures forall u :: u in AttachmentUrls(vs) ==> IsAttachmentUrlOf(m, u)
  {
    forall u | u in AttachmentUrls(vs) ensures IsAttachmentUrlOf(m, u) {
      var j :| 0 <= j < |vs| && u in AttachmentUrlsOf(vs[j]);
      assert m[ks[j]] == vs[j];
    }
    forall k, u | k in m && u in AttachmentUrlsOf(m[k]) ensures u in AttachmentUrls(vs) {
      var j :| 0 <= j < |ks| && ks[j] == k;
    }
  }

  /** The userpic half of `downloadUserpicsAndAttachments`: the worklist of `Object.values(users)`,
      downloaded over `files`; it lists the picture of every user that has one. */
  method DownloadUserpics(users: map<Id, User>, files: map<Path, Bytes>, pathOf: Url -> Path, asset: Url -> Bytes)
    returns (files': map<Path, Bytes>, urls: seq<Url>, fetched: seq<Url>)
    ensures Downloaded(urls, files, files', fetched, pathOf, asset)
    ensures forall k :: k in users && Truthy(users[k].profilePictureLargeUrl) ==>
      users[k].profilePictureLargeUrl.value in urls
    ensures forall u :: u in urls ==> IsUserpicOf(users, u)
  {
    var ids, values := ValuesOf(users);
    urls := UserpicUrls(values);
    files', fetched := DownloadFiles(urls, files, pathOf, asset);
    UserpicsCoverUsers(users, ids, values);
  }

  /** The attachment half: the worklist of `Object.values(attachments)`, downloaded over `files`; it
      lists every URL of every attachment. */
  method DownloadAttachments(attachments: map<Id, Attachment>, files: map<Path, Bytes>, pathOf: Url -> Path, asset: Url -> Bytes)
    returns (files': map<Path, Bytes>, urls: seq<Url>, fetched: seq<Url>)
    ensures Downloaded(urls, files, files', fetched, pathOf, asset)
    ensures forall k, u :: k in attachments && u in AttachmentUrlsOf(attachments[k]) ==> u in urls
    ensures forall u :: u in urls ==> IsAttachmentUrlOf(attachments, u)
  {
    var ids, values := ValuesOf(attachments);
    urls := AttachmentUrls(values);
    files', fetched := DownloadFiles(urls, files, pathOf, asset);
    AttachmentUrlsCoverAttachments(attachments, ids, values);
  }

  /** `downloadUserpicsAndAttachments`: the userpic worklist is downloaded, then the attachment
      worklist. Only asset files change; files already present are kept byte for byte; every
      userpic and attachment URL of the timeline ends up with a file; and each missing path is
      fetched exactly once over both worklists. */
  method DownloadUserpicsAndAttachments(tl: Timeline, d: Disk, pathOf: Url -> Path, asset: Url -> Bytes)
    returns (d': Disk, userpics: seq<Url>, attachmentUrls: seq<Url>, fetched: seq<Url>)
    ensures d' == d.(assets := d'.assets)
    ensures d'.assets.Keys == d.assets.Keys + KeysOf(userpics, pathOf) + KeysOf(attachmentUrls, pathOf)
    ensures forall p :: p in d.assets ==> d'.assets[p] == d.assets[p]
    ensures forall k :: k in tl.users && Truthy(tl.users[k].profilePictureLargeUrl) ==>
      tl.users[k].profilePictureLargeUrl.value in userpics
    ensures forall k, u :: k in tl.attachments && u in AttachmentUrlsOf(tl.attachments[k]) ==> u in attachmentUrls
    ensures forall k :: k in tl.users && Truthy(tl.users[k].profilePictureLargeUrl) ==>
      pathOf(tl.users[k].profilePictureLargeUrl.value) in d'.assets
    ensures forall k, u :: k in tl.attachments && u in AttachmentUrlsOf(tl.attachments[k]) ==> pathOf(u) in d'.assets
    ensures forall u :: u in fetched ==> pathOf(u) !in d.assets && pathOf(u) in d'.assets && d'.assets[pathOf(u)] == asset(u)
    ensures forall i, j :: 0 <= i < j < |fetched| ==> pathOf(fetched[i]) != pathOf(fetched[j])
    ensures KeysOf(fetched, pathOf) == (KeysOf(userpics, pathOf) + KeysOf(attachmentUrls, pathOf)) - d.assets.Keys
    ensures forall u :: u in userpics ==> IsUserpicOf(tl.users, u)
    ensures forall u :: u in attachmentUrls ==> IsAttachmentUrlOf(tl.attachments, u)
    ensures forall u :: u in fetched ==> IsUserpicOf(tl.users, u) || IsAttachmentUrlOf(tl.attachments, u)
  {
    var files, first, files', second;
    files, userpics, first := DownloadUserpics(tl.users, d.assets, pathOf, asset);
    files', attachmentUrls, second := DownloadAttachments(tl.attachments, files, pathOf, asset);
    d' := d.(assets := files');
    fetched := first + second;
    DownloadedTwice(userpics, attachmentUrls, d.assets, files, files', first, second, pathOf, asset);
    KeysOfMembers(userpics, pathOf);
    KeysOfMembers(attachmentUrls, pathOf);
  }

  /** The set bookkeeping of the asset stage: the paths fetched are the worklist paths missing
      before, and the paths present after are those before plus the worklist paths, so the paths
      fetched are exactly the paths that are new. */
  lemma NewFilesAreFetched(before: set<Path>, after: set<Path>, listed: set<Path>, fetched: set<Path>)
    requires after == before + listed && fetched == listed - before
    ensures fetched == after - before
  {
  }

  /** How `main` ended: authentication failed (nothing written), pagination stopped on the
      model's fuel bound, or every stage ran. */
  datatype ArchiveOutcome = AuthFailed(response: Session) | Unfinished(timeline: Timeline) | Archived(timeline: Timeline)

  /** What `getPostsTimeline` does on `d`: a stored timeline whose flag says last page is returned
      as stored with no request; otherwise the run pages from the resume point, checkpointing after
      every page, until a page says last page or the fuel runs out. */
  ghost predicate PagedRun(d: Disk, page: nat -> Page, fuel: nat, tl: Timeline, pages: PageTrace<Disk>)
  {
    if d.timeline == Some(true) then tl == Stored(d) && pages == PageTrace([], [], [])
    else PagedBy(ResumeFrom(d), d, Checkpoint, page, fuel, tl, pages)
  }

  /** The pagination stage as `main` sees it: the run `getPostsTimeline` makes, finished exactly
      when the returned timeline says last page; then the disk holds that timeline with the flag
      set. Only the JSON files change. */
  method PaginationStage(d: Disk, page: nat -> Page, fuel: nat)
    returns (tl: Timeline, d': Disk, finished: bool, pages: PageTrace<Disk>)
    ensures PagedRun(d, page, fuel, tl, pages)
    ensures finished <==> tl.isLastPage
    ensures finished ==> Stored(d') == tl && d'.timeline == Some(true)
    ensures !finished ==> d' == (if pages.responses == [] then d else Checkpoint(d, tl))
    ensures d'.session == d.session && d'.assets == d.assets
    ensures WellKeyed(Stored(d).posts) ==> WellKeyed(tl.posts)
  {
    var end, offsets, responses, disks;
    tl, d', end, offsets, responses, disks := GetPostsTimeline(d, page, fuel);
    finished := end != FuelExhausted;
    pages := PageTrace(offsets, responses, disks);
    if WellKeyed(Stored(d).posts) && end != StoredComplete {
      MergeAllKeepsWellKeyed(ResumeFrom(d), responses);
    }
  }

  /** The hydration stage as `main` sees it: `hydratePosts` over the selection of `tl`, and the
      disk keeps holding the timeline it returns. */
  method HydrationStage(tl: Timeline, d: Disk, fullPost: Id -> FullPost) returns (tl': Timeline, d': Disk, order: seq<Id>)
    requires Stored(d) == tl
    ensures HydratedBy(tl, fullPost, order, tl')
    ensures Stored(d') == tl'
    ensures d'.timeline == d.timeline && d'.session == d.session && d'.assets == d.assets
    ensures WellKeyed(tl.posts) ==> Selection(tl'.posts) == {}
  {
    var disks;
    tl', d', order, disks := HydratePosts(tl, d, fullPost);
  }

  /** `main`: authenticate, page, hydrate, then download the assets of the hydrated timeline. A
      rejected login leaves the disk as it was. A completed run leaves a disk whose stored
      timeline is the final timeline with its flag set, and on which every userpic and
      attachment URL has a file; when the stored posts were well keyed, nothing is left to
      hydrate either, so running `main` again fetches no post. Asset files present at the start
      keep their bytes, and each asset path missing at the start is fetched exactly once. */
  method Archive(d: Disk, api: Api, isValidSession: Session -> bool, pathOf: Url -> Path, fuel: nat)
    returns (outcome: ArchiveOutcome, d': Disk, paged: Timeline, pages: PageTrace<Disk>, order: seq<Id>, fetched: seq<Url>)
    ensures outcome.AuthFailed? <==> AuthenticateDisk(d, api.whoami, isValidSession).Rejected?
    ensures outcome.AuthFailed? ==> d' == d && pages == PageTrace([], [], []) && order == []
    ensures !outcome.AuthFailed? ==> PagedRun(AuthenticateDisk(d, api.whoami, isValidSession).disk, api.page, fuel, paged, pages)
    ensures outcome.Unfinished? <==> !outcome.AuthFailed? && !paged.isLastPage
    ensures outcome.Unfinished? ==> outcome.timeline == paged && order == []
    ensures outcome.Unfinished? ==>
      var A := AuthenticateDisk(d, api.whoami, isValidSession).disk;
      d' == (if pages.responses == [] then A else Checkpoint(A, paged))
    ensures outcome.Archived? ==> HydratedBy(paged, api.fullPost, order, outcome.timeline)
    ensures !outcome.AuthFailed? ==> d'.session == AuthenticateDisk(d, api.whoami, isValidSession).disk.session
    ensures outcome.Archived? ==> d'.timeline == Some(true) && Stored(d') == outcome.timeline
    ensures outcome.Archived? && WellKeyed(Stored(d).posts) ==> Selection(Stored(d').posts) == {}
    ensures outcome.Archived? ==> forall k :: k in outcome.timeline.users && Truthy(outcome.timeline.users[k].profilePictureLargeUrl) ==>
      pathOf(outcome.timeline.users[k].profilePictureLargeUrl.value) in d'.assets
    ensures outcome.Archived? ==> forall k, u :: k in outcome.timeline.attachments && u in AttachmentUrlsOf(outcome.timeline.attachments[k]) ==>
      pathOf(u) in d'.assets
    ensures d.assets.Keys <= d'.assets.Keys && forall p :: p in d.assets ==> d'.assets[p] == d.assets[p]
    ensures !outcome.Archived? ==> fetched == [] && d'.assets == d.assets
    ensures KeysOf(fetched, pathOf) == d'.assets.Keys - d.assets.Keys
    ensures forall i, j :: 0 <= i < j < |fetched| ==> pathOf(fetched[i]) != pathOf(fetched[j])
    ensures forall u :: u in fetched ==> pathOf(u) in d'.assets && d'.assets[pathOf(u)] == api.asset(u)
    ensures outcome.Archived? ==> forall u :: u in fetched ==>
      IsUserpicOf(outcome.timeline.users, u) || IsAttachmentUrlOf(outcome.timeline.attachments, u)
  {
    var auth := AuthenticateDisk(d, api.whoami, isValidSession);
    if auth.Rejected? {
      return AuthFailed(auth.response), d, Empty, PageTrace([], [], []), [], [];
    }
    var d1 := auth.disk;
    assert d1.assets == d.assets;
    var d2, finished;
    paged, d2, finished, pages := PaginationStage(d1, api.page, fuel);
    if !finished {
      return Unfinished(paged), d2, paged, pages, [], [];
    }
    assert Stored(d1).posts == Stored(d).posts;
    var full, d3;
    full, d3, order := HydrationStage(paged, d2, api.fullPost);
    var d4, userpics, attachmentUrls;
    d4, userpics, attachmentUrls, fetched := DownloadUserpicsAndAttachments(full, d3, pathOf, api.asset);
    outcome, d' := Archived(full), d4;
    assert d3.assets == d.assets;
    NewFilesAreFetched(d.assets.Keys, d'.assets.Keys, KeysOf(userpics, pathOf) + KeysOf(attachmentUrls, pathOf),
                       KeysOf(fetched, pathOf));
  }
}
