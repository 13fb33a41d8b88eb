/** The in-memory timeline both entry points build, the page merge and hydration step applied to
    it, and the two loops that drive them with a checkpoint after every unit of work. */
module Timelines {
  import opened Entities
  import opened Merge

  /** The `timeline` object: four id-keyed collections and the last-page flag. */
  datatype Timeline = Timeline(
    users: map<Id, User>,
    comments: map<Id, Comment>,
    attachments: map<Id, Attachment>,
    posts: map<Id, PostEntry>,
    isLastPage: bool)

  /** The literal the pagination functions start from. */
  const Empty := Timeline(map[], map[], map[], map[], false)

  /** How a pagination run ended. `FuelExhausted` is the model's bound on the unbounded loop;
      `ReferenceError` is the older variant's crash on an undeclared variable. */
  datatype PaginationEnd = StoredComplete | ReachedLastPage | FuelExhausted | ReferenceError

  /** The listed posts of a page as posts-collection entries. */
  function Summaries(ps: seq<Post>): (es: seq<PostEntry>)
    ensures |es| == |ps|
    ensures forall i :: 0 <= i < |ps| ==> es[i] == Summary(ps[i])
  {
    seq(|ps|, i requires 0 <= i < |ps| => Summary(ps[i]))
  }

  /** The state before step `i` of a run that started in `first` and passed through `xs`. */
  function Prior<T>(first: T, xs: seq<T>, i: nat): T
    requires i <= |xs|
  {
    if i == 0 then first else xs[i - 1]
  }

  /** One loop iteration of `getPostsTimeline`: take the page's `isLastPage`, then write its posts,
      users, comments and attachments over the collections by id. */
  function MergePage(tl: Timeline, p: Page): Timeline
  {
    Timeline(
      Upsert(tl.users, p.users, UserKey),
      Upsert(tl.comments, p.comments, CommentKey),
      Upsert(tl.attachments, p.attachments, AttachmentKey),
      Upsert(tl.posts, Summaries(p.posts), EntryKey),
      p.isLastPage)
  }

  /** A page merge takes the page's last-page flag and writes each of its records over the
      collections by id: no key is removed and the later record for an id wins within the page. */
  lemma MergePageOverlays(tl: Timeline, p: Page)
    ensures MergePage(tl, p).isLastPage == p.isLastPage
    ensures Overlays(MergePage(tl, p).posts, tl.posts, Summaries(p.posts), EntryKey)
    ensures Overlays(MergePage(tl, p).users, tl.users, p.users, UserKey)
    ensures Overlays(MergePage(tl, p).comments, tl.comments, p.comments, CommentKey)
    ensures Overlays(MergePage(tl, p).attachments, tl.attachments, p.attachments, AttachmentKey)
  {
    UpsertOverlays(tl.posts, Summaries(p.posts), EntryKey);
    UpsertOverlays(tl.users, p.users, UserKey);
    UpsertOverlays(tl.comments, p.comments, CommentKey);
    UpsertOverlays(tl.attachments, p.attachments, AttachmentKey);
  }

  /** The timeline after merging the pages `ps` in order. */
  function MergeAll(tl: Timeline, ps: seq<Page>): (r: Timeline)
    ensures ps == [] ==> r == tl
    ensures ps != [] ==> r.isLastPage == ps[|ps| - 1].isLastPage
    decreases |ps|
  {
    if ps == [] then tl else MergePage(MergeAll(tl, ps[..|ps| - 1]), ps[|ps| - 1])
  }

  /** All records of one kind from the pages `ps`, page after page; one function per field of
      `Page`, since each kind is merged into its own collection. */
  function AllPosts(ps: seq<Page>): seq<Post>
    decreases |ps|
  {
    if ps == [] then [] else AllPosts(ps[..|ps| - 1]) + ps[|ps| - 1].posts
  }

  function AllUsers(ps: seq<Page>): seq<User>
    decreases |ps|
  {
    if ps == [] then [] else AllUsers(ps[..|ps| - 1]) + ps[|ps| - 1].users
  }

  function AllComments(ps: seq<Page>): seq<Comment>
    decreases |ps|
  {
    if ps == [] then [] else AllComments(ps[..|ps| - 1]) + ps[|ps| - 1].comments
  }

  function AllAttachments(ps: seq<Page>): seq<Attachment>
    decreases |ps|
  {
    if ps == [] then [] else AllAttachments(ps[..|ps| - 1]) + ps[|ps| - 1].attachments
  }

  /** Merging pages one by one is one insert-or-overwrite of all their records in order: no key
      is ever removed and, within a page and across pages, the later record for an id wins. */
  lemma {:induction false} MergeAllOverlays(tl: Timeline, ps: seq<Page>)
    ensures Overlays(MergeAll(tl, ps).posts, tl.posts, Summaries(AllPosts(ps)), EntryKey)
    ensures Overlays(MergeAll(tl, ps).users, tl.users, AllUsers(ps), UserKey)
    ensures Overlays(MergeAll(tl, ps).comments, tl.comments, AllComments(ps), CommentKey)
    ensures Overlays(MergeAll(tl, ps).attachments, tl.attachments, AllAttachments(ps), AttachmentKey)
  {
    MergeAllIsUpsert(tl, ps);
    UpsertOverlays(tl.posts, Summaries(AllPosts(ps)), EntryKey);
    UpsertOverlays(tl.users, AllUsers(ps), UserKey);
    UpsertOverlays(tl.comments, AllComments(ps), CommentKey);
    UpsertOverlays(tl.attachments, AllAttachments(ps), AttachmentKey);
  }

  /** The ids a run of pages leaves in each collection: the starting ids plus every id listed. */
  lemma MergeAllKeys(tl: Timeline, ps: seq<Page>)
    ensures MergeAll(tl, ps).posts.Keys == tl.posts.Keys + KeysOf(Summaries(AllPosts(ps)), EntryKey)
    ensures MergeAll(tl, ps).users.Keys == tl.users.Keys + KeysOf(AllUsers(ps), UserKey)
    ensures MergeAll(tl, ps).comments.Keys == tl.comments.Keys + KeysOf(AllComments(ps), CommentKey)
    ensures MergeAll(tl, ps).attachments.Keys == tl.attachments.Keys + KeysOf(AllAttachments(ps), AttachmentKey)
  {
    MergeAllOverlays(tl, ps);
  }

  lemma {:induction false} MergeAllIsUpsert(tl: Timeline, ps: seq<Page>)
    ensures MergeAll(tl, ps).posts == Upsert(tl.posts, Summaries(AllPosts(ps)), EntryKey)
    ensures MergeAll(tl, ps).users == Upsert(tl.users, AllUsers(ps), UserKey)
    ensures MergeAll(tl, ps).comments == Upsert(tl.comments, AllComments(ps), CommentKey)
    ensures MergeAll(tl, ps).attachments == Upsert(tl.attachments, AllAttachments(ps), AttachmentKey)
    decreases |ps|
  {
    if ps != [] {
      var front, p := ps[..|ps| - 1], ps[|ps| - 1];
      MergeAllIsUpsert(tl, front);
      assert Summaries(AllPosts(ps)) == Summaries(AllPosts(front)) + Summaries(p.posts);
      UpsertConcat(tl.posts, Summaries(AllPosts(front)), Summaries(p.posts), EntryKey);
      UpsertConcat(tl.users, AllUsers(front), p.users, UserKey);
      UpsertConcat(tl.comments, AllComments(front), p.comments, CommentKey);
      UpsertConcat(tl.attachments, AllAttachments(front), p.attachments, AttachmentKey);
    }
  }

  /** What a pagination run from `start` has done after `|responses|` pages: request `i` asked
      for `page(offsets[i])` with the offset equal to the number of post ids held at that moment;
      after each page the timeline merged so far was saved over the previous disk; and every page
      but the last said it was not the last. */
  ghost predicate PaginationTrace<D>(start: Timeline, disk: D, save: (D, Timeline) -> D, page: nat -> Page,
                                     offsets: seq<nat>, responses: seq<Page>, disks: seq<D>)
  {
    && |offsets| == |responses| == |disks|
    && (forall i :: 0 <= i < |responses| ==> responses[i] == page(offsets[i]))
    && (forall i :: 0 <= i < |offsets| ==> offsets[i] == |MergeAll(start, responses[..i]).posts|)
    && disks == SavedAfterPages(start, disk, save, responses)
    && (forall i :: 0 <= i < |responses| - 1 ==> !responses[i].isLastPage)
  }

  /** What one pagination run recorded: the offset of each request, the page it returned and the
      disk after the save that followed it. */
  datatype PageTrace<D> = PageTrace(offsets: seq<nat>, responses: seq<Page>, disks: seq<D>)

  /** A pagination run from `start` that returned `tl`: the pages of `pages` were requested as
      `PaginationTrace` says, `tl` merges them all into `start`, and the run stopped at the first
      page saying last page or when the `fuel` requests were spent. */
  ghost predicate PagedBy<D>(start: Timeline, disk: D, save: (D, Timeline) -> D, page: nat -> Page, fuel: nat,
                             tl: Timeline, pages: PageTrace<D>)
  {
    && PaginationTrace(start, disk, save, page, pages.offsets, pages.responses, pages.disks)
    && tl == MergeAll(start, pages.responses)
    && |pages.responses| <= fuel
    && (tl.isLastPage || |pages.responses| == fuel)
  }

  /** The disks a run that fetched `responses` leaves, one after each page: the timeline merged
      so far saved over the disk before it. */
  ghost function SavedAfterPages<D>(start: Timeline, disk: D, save: (D, Timeline) -> D, responses: seq<Page>): seq<D>
    decreases |responses|
  {
    if responses == [] then []
    else
      var before := SavedAfterPages(start, disk, save, responses[..|responses| - 1]);
      before + [save(Prior(disk, before, |before|), MergeAll(start, responses))]
  }

  /** A save that overwrites everything it writes: saving twice is saving the second time. */
  ghost predicate Overwrites<D(!new)>(save: (D, Timeline) -> D)
  {
    forall d: D, x: Timeline, y: Timeline :: save(save(d, x), y) == save(d, y)
  }

  /** With an overwriting save, the disk after page `i` is the timeline of the first `i + 1`
      pages saved over the disk the run started with. */
  lemma {:induction false} SavedAfterPagesCollapse<D(!new)>(start: Timeline, disk: D, save: (D, Timeline) -> D, responses: seq<Page>)
    requires Overwrites(save)
    ensures |SavedAfterPages(start, disk, save, responses)| == |responses|
    ensures forall i :: 0 <= i < |responses| ==>
      SavedAfterPages(start, disk, save, responses)[i] == save(disk, MergeAll(start, responses[..i + 1]))
    decreases |responses|
  {
    if responses != [] {
      var front := responses[..|responses| - 1];
      SavedAfterPagesCollapse(start, disk, save, front);
      var before := SavedAfterPages(start, disk, save, front);
      var all := SavedAfterPages(start, disk, save, responses);
      forall i | 0 <= i < |responses| ensures all[i] == save(disk, MergeAll(start, responses[..i + 1])) {
        if i < |front| {
          assert all[i] == before[i];
          assert front[..i + 1] == responses[..i + 1];
        } else {
          assert responses[..i + 1] == responses;
        }
      }
    }
  }

  /** The offsets part of the trace survives one more page. */
  lemma OffsetsExtend(start: Timeline, offsets: seq<nat>, responses: seq<Page>, response: Page)
    requires |offsets| == |responses|
    requires forall i :: 0 <= i < |offsets| ==> offsets[i] == |MergeAll(start, responses[..i]).posts|
    ensures var offsets', responses' := offsets + [|MergeAll(start, responses).posts|], responses + [response];
      forall i :: 0 <= i < |offsets'| ==> offsets'[i] == |MergeAll(start, responses'[..i]).posts|
  {
    var responses' := responses + [response];
    var offsets' := offsets + [|MergeAll(start, responses).posts|];
    forall i | 0 <= i < |offsets'| ensures offsets'[i] == |MergeAll(start, responses'[..i]).posts| {
      assert responses'[..i] == responses[..i];
    }
  }

  /** One more iteration of the loop extends the trace. */
  lemma PaginationTraceExtends<D>(start: Timeline, disk: D, save: (D, Timeline) -> D, page: nat -> Page,
                                  offsets: seq<nat>, responses: seq<Page>, disks: seq<D>)
    requires PaginationTrace(start, disk, save, page, offsets, responses, disks)
    requires !MergeAll(start, responses).isLastPage
    ensures var offset := |MergeAll(start, responses).posts|;
      var responses' := responses + [page(offset)];
      PaginationTrace(start, disk, save, page, offsets + [offset], responses',
                      disks + [save(Prior(disk, disks, |disks|), MergeAll(start, responses'))])
  {
    var offset := |MergeAll(start, responses).posts|;
    assert responses != [] ==> !responses[|responses| - 1].isLastPage by {
      if responses != [] {
        assert responses[..|responses|] == responses;
      }
    }
    OffsetsExtend(start, offsets, responses, page(offset));
    var responses' := responses + [page(offset)];
    assert responses'[..|responses|] == responses;
  }

  /** A run with fuel left that started short of the last page made at least one request, and
      the first asked for the offset equal to the number of posts it started with. */
  lemma PaginationStarts<D>(start: Timeline, disk: D, save: (D, Timeline) -> D, page: nat -> Page,
                            offsets: seq<nat>, responses: seq<Page>, disks: seq<D>, fuel: nat)
    requires PaginationTrace(start, disk, save, page, offsets, responses, disks)
    requires !start.isLastPage && fuel > 0
    requires MergeAll(start, responses).isLastPage || |responses| == fuel
    ensures responses != [] && offsets[0] == |start.posts|
  {
    assert responses[..0] == [];
  }

  /** The loop of `getPostsTimeline`, shared by both entry points. Starting from `start` it asks
      for the page at offset = number of post ids held, merges it, saves the timeline with `save`,
      and stops exactly when a page says `isLastPage` (or, in the model only, when `fuel` pages
      have been fetched). The expected post count of the session plays no part. */
  method Paginate<D>(start: Timeline, disk: D, save: (D, Timeline) -> D, page: nat -> Page, fuel: nat)
    returns (tl: Timeline, d: D, offsets: seq<nat>, responses: seq<Page>, disks: seq<D>)
    requires !start.isLastPage
    ensures PaginationTrace(start, disk, save, page, offsets, responses, disks)
    ensures |responses| <= fuel
    ensures tl == MergeAll(start, responses)
    ensures d == Prior(disk, disks, |disks|)
    ensures tl.isLastPage || |responses| == fuel
  {
    tl, d, offsets, responses, disks := start, disk, [], [], [];
    while !tl.isLastPage && |responses| < fuel
      invariant PaginationTrace(start, disk, save, page, offsets, responses, disks)
      invariant |responses| <= fuel
      invariant tl == MergeAll(start, responses)
      invariant d == Prior(disk, disks, |disks|)
      decreases fuel - |responses|
    {
      PaginationTraceExtends(start, disk, save, page, offsets, responses, disks);
      var offset := |tl.posts|;
      var response := page(offset);
      offsets := offsets + [offset];
      responses := responses + [response];
      tl := MergePage(tl, response);
      d := save(d, tl);
      disks := disks + [d];
    }
  }

  /** The ids the hydration pass selects: those whose entry needs hydration. */
  function Selection(posts: map<Id, PostEntry>): set<Id>
  {
    set k | k in posts && NeedsHydration(posts[k])
  }

  /** Every listed post is stored under its own id, as the page merge stores it. */
  ghost predicate WellKeyed(posts: map<Id, PostEntry>)
  {
    forall k :: k in posts && posts[k].Summary? ==> posts[k].post.id == k
  }

  /** A page merge stores every listed post under its own id, so it keeps a well-keyed collection
      well keyed. */
  lemma MergePageKeepsWellKeyed(tl: Timeline, p: Page)
    requires WellKeyed(tl.posts)
    ensures WellKeyed(MergePage(tl, p).posts)
  {
    var es := Summaries(p.posts);
    var r := MergePage(tl, p).posts;
    UpsertOverlays(tl.posts, es, EntryKey);
    forall k | k in r && r[k].Summary? ensures r[k].post.id == k {
      if k in KeysOf(es, EntryKey) {
        var i := LastWithKeyExists(es, EntryKey, k);
        assert r[k] == es[i];
      }
    }
  }

  lemma {:induction false} MergeAllKeepsWellKeyed(tl: Timeline, ps: seq<Page>)
    requires WellKeyed(tl.posts)
    ensures WellKeyed(MergeAll(tl, ps).posts)
    decreases |ps|
  {
    if ps != [] {
      MergeAllKeepsWellKeyed(tl, ps[..|ps| - 1]);
      MergePageKeepsWellKeyed(MergeAll(tl, ps[..|ps| - 1]), ps[|ps| - 1]);
    }
  }

  /** One iteration of `hydratePosts`: the whole response goes under the post's id, and its users,
      comments and attachments are written over the collections by id. */
  function HydrateStep(tl: Timeline, p: Post, response: FullPost): Timeline
  {
    Timeline(
      Upsert(tl.users, response.users, UserKey),
      Upsert(tl.comments, response.comments, CommentKey),
      Upsert(tl.attachments, response.attachments, AttachmentKey),
      tl.posts[p.id := Hydrated(response)],
      tl.isLastPage)
  }

  /** The timeline after hydrating the posts `ps` in order with the responses of `fullPost`. */
  function HydrateAll(tl: Timeline, ps: seq<Post>, fullPost: Id -> FullPost): (r: Timeline)
    ensures r.isLastPage == tl.isLastPage
    decreases |ps|
  {
    if ps == [] then tl
    else HydrateStep(HydrateAll(tl, ps[..|ps| - 1], fullPost), ps[|ps| - 1], fullPost(ps[|ps| - 1].id))
  }

  /** Hydrating `ps` stores under each of their ids the entire response for it and leaves every
      other post as it was. */
  lemma {:induction false} HydrateAllPosts(tl: Timeline, ps: seq<Post>, fullPost: Id -> FullPost)
    ensures HydrateAll(tl, ps, fullPost).posts.Keys == tl.posts.Keys + KeysOf(ps, PostKey)
    ensures forall k :: k in tl.posts && k !in KeysOf(ps, PostKey) ==> HydrateAll(tl, ps, fullPost).posts[k] == tl.posts[k]
    ensures forall i :: 0 <= i < |ps| ==> HydrateAll(tl, ps, fullPost).posts[ps[i].id] == Hydrated(fullPost(ps[i].id))
    decreases |ps|
  {
    if ps != [] {
      var front, p := ps[..|ps| - 1], ps[|ps| - 1];
      HydrateAllPosts(tl, front, fullPost);
      HydrateAllPostsSnoc(tl, ps, fullPost);
      KeysOfSnoc(ps, PostKey);
      assert ps == front + [p];
      HydratedAfterSnoc(HydrateAll(tl, front, fullPost).posts, HydrateAll(tl, ps, fullPost).posts, front, p, fullPost);
    }
  }

  /** The last hydration step puts the response under the last post's id. */
  lemma HydrateAllPostsSnoc(tl: Timeline, ps: seq<Post>, fullPost: Id -> FullPost)
    requires ps != []
    ensures HydrateAll(tl, ps, fullPost).posts
      == HydrateAll(tl, ps[..|ps| - 1], fullPost).posts[ps[|ps| - 1].id := Hydrated(fullPost(ps[|ps| - 1].id))]
  {
  }

  /** If every post of `front` is hydrated in `before`, every post of `front + [p]` is hydrated
      once `p` is. */
  lemma HydratedAfterSnoc(before: map<Id, PostEntry>, after: map<Id, PostEntry>, front: seq<Post>, p: Post,
                          fullPost: Id -> FullPost)
    requires forall i :: 0 <= i < |front| ==> front[i].id in before && before[front[i].id] == Hydrated(fullPost(front[i].id))
    requires after == before[p.id := Hydrated(fullPost(p.id))]
    ensures forall i :: 0 <= i < |front + [p]| ==>
      (front + [p])[i].id in after && after[(front + [p])[i].id] == Hydrated(fullPost((front + [p])[i].id))
  {
    var ps := front + [p];
    forall i | 0 <= i < |ps| ensures ps[i].id in after && after[ps[i].id] == Hydrated(fullPost(ps[i].id)) {
      if i < |front| {
        assert ps[i] == front[i];
      }
    }
  }

  /** One hydration step adds to each collection exactly the ids of the response's records, adds
      the post's id to the posts, and takes exactly that id out of the selection. */
  lemma HydrateStepKeys(tl: Timeline, p: Post, response: FullPost)
    ensures HydrateStep(tl, p, response).users.Keys == tl.users.Keys + KeysOf(response.users, UserKey)
    ensures HydrateStep(tl, p, response).comments.Keys == tl.comments.Keys + KeysOf(response.comments, CommentKey)
    ensures HydrateStep(tl, p, response).attachments.Keys == tl.attachments.Keys + KeysOf(response.attachments, AttachmentKey)
    ensures HydrateStep(tl, p, response).posts.Keys == tl.posts.Keys + {p.id}
    ensures Selection(HydrateStep(tl, p, response).posts) == Selection(tl.posts) - {p.id}
  {
    UpsertOverlays(tl.users, response.users, UserKey);
    UpsertOverlays(tl.comments, response.comments, CommentKey);
    UpsertOverlays(tl.attachments, response.attachments, AttachmentKey);
  }

  /** Hydration never drops a user, comment or attachment, and every user, comment and
      attachment of every fetched response ends up in its collection. */
  lemma {:induction false} HydrateAllCollections(tl: Timeline, ps: seq<Post>, fullPost: Id -> FullPost)
    ensures tl.users.Keys <= HydrateAll(tl, ps, fullPost).users.Keys
    ensures tl.comments.Keys <= HydrateAll(tl, ps, fullPost).comments.Keys
    ensures tl.attachments.Keys <= HydrateAll(tl, ps, fullPost).attachments.Keys
    ensures forall i :: 0 <= i < |ps| ==> KeysOf(fullPost(ps[i].id).users, UserKey) <= HydrateAll(tl, ps, fullPost).users.Keys
    ensures forall i :: 0 <= i < |ps| ==> KeysOf(fullPost(ps[i].id).comments, CommentKey) <= HydrateAll(tl, ps, fullPost).comments.Keys
    ensures forall i :: 0 <= i < |ps| ==>
      KeysOf(fullPost(ps[i].id).attachments, AttachmentKey) <= HydrateAll(tl, ps, fullPost).attachments.Keys
    decreases |ps|
  {
    if ps != [] {
      var front, p := ps[..|ps| - 1], ps[|ps| - 1];
      HydrateAllCollections(tl, front, fullPost);
      HydrateStepKeys(HydrateAll(tl, front, fullPost), p, fullPost(p.id));
      assert forall i :: 0 <= i < |front| ==> front[i] == ps[i];
    }
  }

  /** The posts the selection `order` names, as the collection holds them. */
  function SelectedPosts(posts: map<Id, PostEntry>, order: seq<Id>): (ps: seq<Post>)
    requires forall i :: 0 <= i < |order| ==> order[i] in posts && posts[order[i]].Summary?
    ensures |ps| == |order|
    ensures forall i :: 0 <= i < |order| ==> ps[i] == posts[order[i]].post
  {
    seq(|order|, i requires 0 <= i < |order| => posts[order[i]].post)
  }

  /** A hydration pass over `tl` that fetched the posts of `order`: `order` names every post still
      to hydrate exactly once, each a summary of `tl`, and `r` is `tl` with the full-post response
      of each merged in that order. */
  ghost predicate HydratedBy(tl: Timeline, fullPost: Id -> FullPost, order: seq<Id>, r: Timeline)
  {
    && (forall k :: k in order <==> k in Selection(tl.posts))
    && (forall i, j :: 0 <= i < j < |order| ==> order[i] != order[j])
    && (forall i :: 0 <= i < |order| ==> order[i] in tl.posts && tl.posts[order[i]].Summary?)
    && r == HydrateAll(tl, SelectedPosts(tl.posts, order), fullPost)
  }

  /** The disks a hydration pass over `ps` leaves, one after each post: the timeline hydrated so
      far saved over the disk before it. */
  ghost function SavedAfterPosts<D>(tl: Timeline, disk: D, save: (D, Timeline) -> D, fullPost: Id -> FullPost,
                                    ps: seq<Post>): seq<D>
    decreases |ps|
  {
    if ps == [] then []
    else
      var before := SavedAfterPosts(tl, disk, save, fullPost, ps[..|ps| - 1]);
      before + [save(Prior(disk, before, |before|), HydrateAll(tl, ps, fullPost))]
  }

  /** With an overwriting save, the disk after post `i` is the timeline hydrated through `ps[i]`
      saved over the disk the pass started with. */
  lemma {:induction false} SavedAfterPostsCollapse<D(!new)>(tl: Timeline, disk: D, save: (D, Timeline) -> D,
                                                      fullPost: Id -> FullPost, ps: seq<Post>)
    requires Overwrites(save)
    ensures |SavedAfterPosts(tl, disk, save, fullPost, ps)| == |ps|
    ensures forall i :: 0 <= i < |ps| ==>
      SavedAfterPosts(tl, disk, save, fullPost, ps)[i] == save(disk, HydrateAll(tl, ps[..i + 1], fullPost))
    decreases |ps|
  {
    if ps != [] {
      var front := ps[..|ps| - 1];
      SavedAfterPostsCollapse(tl, disk, save, fullPost, front);
      var before := SavedAfterPosts(tl, disk, save, fullPost, front);
      var all := SavedAfterPosts(tl, disk, save, fullPost, ps);
      forall i | 0 <= i < |ps| ensures all[i] == save(disk, HydrateAll(tl, ps[..i + 1], fullPost)) {
        if i < |front| {
          assert all[i] == before[i];
          assert front[..i + 1] == ps[..i + 1];
        } else {
          assert ps[..i + 1] == ps;
        }
      }
    }
  }

  /** When the hydrated posts are exactly the selected ones, no post needs hydration afterwards
      and the post ids are the ones there were. */
  lemma HydrationConverges(tl: Timeline, ps: seq<Post>, fullPost: Id -> FullPost)
    requires KeysOf(ps, PostKey) == Selection(tl.posts)
    ensures HydrateAll(tl, ps, fullPost).posts.Keys == tl.posts.Keys
    ensures Selection(HydrateAll(tl, ps, fullPost).posts) == {}
  {
    var r := HydrateAll(tl, ps, fullPost);
    HydrateAllPosts(tl, ps, fullPost);
    forall k | k in r.posts ensures !NeedsHydration(r.posts[k]) {
      if k in Selection(tl.posts) {
        var i :| 0 <= i < |ps| && ps[i].id == k;
      }
    }
  }

  /** The loop of `hydratePosts`, shared by both entry points: every selected post is fetched once
      (in some order), its response merged, and the timeline saved with `save` after each. On a
      well-keyed collection the post ids stay the same and nothing is left to hydrate, so a second
      pass fetches nothing. */
  method Hydrate<D>(tl: Timeline, disk: D, save: (D, Timeline) -> D, fullPost: Id -> FullPost)
    returns (r: Timeline, d: D, order: seq<Id>, disks: seq<D>)
    ensures forall k :: k in order <==> k in Selection(tl.posts)
    ensures forall i, j :: 0 <= i < j < |order| ==> order[i] != order[j]
    ensures forall i :: 0 <= i < |order| ==> order[i] in tl.posts && tl.posts[order[i]].Summary?
    ensures |disks| == |order|
    ensures r == HydrateAll(tl, SelectedPosts(tl.posts, order), fullPost)
    ensures disks == SavedAfterPosts(tl, disk, save, fullPost, SelectedPosts(tl.posts, order))
    ensures d == Prior(disk, disks, |disks|)
    ensures WellKeyed(tl.posts) ==> r.posts.Keys == tl.posts.Keys && Selection(r.posts) == {}
  {
    order := Enumerate(Selection(tl.posts));
    assert forall i :: 0 <= i < |order| ==> order[i] in order;
    var ps := SelectedPosts(tl.posts, order);
    r, d, disks := tl, disk, [];
    for n := 0 to |ps|
      invariant |disks| == n
      invariant r == HydrateAll(tl, ps[..n], fullPost)
      invariant disks == SavedAfterPosts(tl, disk, save, fullPost, ps[..n])
      invariant d == Prior(disk, disks, n)
    {
      var response := fullPost(ps[n].id);
      assert ps[..n + 1][..n] == ps[..n];
      r := HydrateStep(r, ps[n], response);
      d := save(d, r);
      disks := disks + [d];
    }
    assert ps[..|ps|] == ps;
    if WellKeyed(tl.posts) {
      SelectedPostsCoverSelection(tl.posts, order);
      HydrationConverges(tl, ps, fullPost);
    }
  }

  /** On a well-keyed collection, the posts an enumeration of the selection names carry exactly
      the selected ids. */
  lemma SelectedPostsCoverSelection(posts: map<Id, PostEntry>, order: seq<Id>)
    requires WellKeyed(posts)
    requires forall k :: k in order <==> k in Selection(posts)
    requires forall i :: 0 <= i < |order| ==> order[i] in posts && posts[order[i]].Summary?
    ensures KeysOf(SelectedPosts(posts, order), PostKey) == Selection(posts)
  {
    var ps := SelectedPosts(posts, order);
    forall k | k in Selection(posts) ensures k in KeysOf(ps, PostKey) {
      var i :| 0 <= i < |order| && order[i] == k;
      assert ps[i].id == k;
    }
  }
}
