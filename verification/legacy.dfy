/** The older entry point: the whole timeline is kept in one `timeline.json`, the session in
    `user.json`, and only `authenticate`, `getPostsTimeline` and `hydratePosts` run. */
module Legacy {
  import opened Options
  import opened Entities
  import opened Sessions
  import opened Timelines

  /** `user.json` and `timeline.json` (`None` when never written). */
  datatype LegacyDisk = LegacyDisk(user: Option<Session>, timeline: Option<Timeline>)

  /** The network requests this entry point makes. */
  datatype LegacyApi = LegacyApi(whoami: Session, page: nat -> Page, fullPost: Id -> FullPost)

  /** The single write after every page and every hydrated post: the whole timeline, flag included. */
  function SaveTimeline(d: LegacyDisk, tl: Timeline): (r: LegacyDisk)
    ensures r.timeline == Some(tl) && r.user == d.user
  {
    d.(timeline := Some(tl))
  }

  /** `getPostsTimeline` of the older entry point. A stored timeline that says last page is returned
      as stored with no request. A stored timeline that does not assigns to the undeclared
      `downloadedPosts` and the run dies before any request, leaving the disk as it was. With no
      stored timeline it pages from the empty timeline at offset = number of post ids held, and
      after every page `timeline.json` holds exactly the timeline merged so far. */
  method GetPostsTimeline(d: LegacyDisk, page: nat -> Page, fuel: nat)
    returns (tl: Timeline, d': LegacyDisk, end: PaginationEnd, offsets: seq<nat>, responses: seq<Page>, disks: seq<LegacyDisk>)
    ensures end == StoredComplete <==> d.timeline.Some? && d.timeline.value.isLastPage
    ensures end == ReferenceError <==> d.timeline.Some? && !d.timeline.value.isLastPage
    ensures end == StoredComplete ==> tl == d.timeline.value
    ensures end in {StoredComplete, ReferenceError} ==> d' == d && offsets == [] && responses == [] && disks == []
    ensures d.timeline.None? ==>
      && PaginationTrace(Empty, d, SaveTimeline, page, offsets, responses, disks)
      && tl == MergeAll(Empty, responses)
      && |responses| <= fuel
      && (end == ReachedLastPage <==> tl.isLastPage)
      && (end == FuelExhausted ==> |responses| == fuel)
    ensures forall i :: 0 <= i < |disks| ==> disks[i] == SaveTimeline(d, MergeAll(Empty, responses[..i + 1]))
    ensures responses != [] ==> d' == SaveTimeline(d, tl)
    ensures responses == [] ==> d' == d
  {
    if d.timeline.Some? {
      if d.timeline.value.isLastPage {
        return d.timeline.value, d, StoredComplete, [], [], [];
      }
      return Empty, d, ReferenceError, [], [], [];
    }
    tl, d', offsets, responses, disks := Paginate(Empty, d, SaveTimeline, page, fuel);
    end := if tl.isLastPage then ReachedLastPage else FuelExhausted;
    assert Overwrites(SaveTimeline);
    SavedAfterPagesCollapse(Empty, d, SaveTimeline, responses);
    if responses != [] {
      assert responses[..|responses|] == responses;
    }
  }

  /** Re-running the older `getPostsTimeline` after the partial-resume crash: the crash leaves
      `timeline.json` as it was, so the next run reads the same partial timeline and crashes the
      same way, before any request. A partial download can never be finished by this entry point. */
  method RerunAfterCrash(d: LegacyDisk, page: nat -> Page, fuel: nat)
    returns (first: PaginationEnd, second: PaginationEnd, d': LegacyDisk, requested: nat)
    requires d.timeline.Some? && !d.timeline.value.isLastPage
    ensures first == ReferenceError && second == ReferenceError
    ensures d' == d && requested == 0
  {
    var tl1, d1, offsets1, responses1, disks1;
    tl1, d1, first, offsets1, responses1, disks1 := GetPostsTimeline(d, page, fuel);
    var tl2, d2, offsets2, responses2, disks2;
    tl2, d2, second, offsets2, responses2, disks2 := GetPostsTimeline(d1, page, fuel);
    d' := d2;
    requested := |responses1| + |responses2|;
  }

  /** `hydratePosts` of the older entry point: no early return, but with nothing selected the loop
      body never runs, so nothing is fetched or written. Otherwise each selected post is fetched
      once, its whole response merged, and `timeline.json` rewritten with the whole timeline
      after every post. */
  method HydratePosts(tl: Timeline, d: LegacyDisk, fullPost: Id -> FullPost)
    returns (tl': Timeline, d': LegacyDisk, order: seq<Id>, disks: seq<LegacyDisk>)
    ensures Selection(tl.posts) == {} ==> tl' == tl && d' == d && order == []
    ensures forall k :: k in order <==> k in Selection(tl.posts)
    ensures forall i, j :: 0 <= i < j < |order| ==> order[i] != order[j]
    ensures forall i :: 0 <= i < |order| ==> order[i] in tl.posts && tl.posts[order[i]].Summary?
    ensures |disks| == |order|
    ensures tl' == HydrateAll(tl, SelectedPosts(tl.posts, order), fullPost)
    ensures forall i :: 0 <= i < |disks| ==>
      disks[i] == SaveTimeline(d, HydrateAll(tl, SelectedPosts(tl.posts, order)[..i + 1], fullPost))
    ensures order != [] ==> d' == SaveTimeline(d, tl')
    ensures d'.user == d.user
    ensures WellKeyed(tl.posts) ==> tl'.posts.Keys == tl.posts.Keys && Selection(tl'.posts) == {}
  {
    tl', d', order, disks := Hydrate(tl, d, SaveTimeline, fullPost);
    assert Selection(tl.posts) == {} ==> order == [] by {
      if order != [] {
        assert order[0] in order;
      }
    }
    var ps := SelectedPosts(tl.posts, order);
    assert Overwrites(SaveTimeline);
    SavedAfterPostsCollapse(tl, d, SaveTimeline, fullPost, ps);
    if order != [] {
      assert ps[..|ps|] == ps;
    }
  }

  /** The disk once the login is settled: a freshly accepted session is written to `user.json`,
      and nothing else is. */
  function LoggedIn(d: LegacyDisk, decision: AuthDecision): (r: LegacyDisk)
    ensures r.timeline == d.timeline
  {
    if decision.Store? then d.(user := Some(decision.session)) else d
  }

  /** What the older `getPostsTimeline` does on `d` when it does not crash: a stored timeline
      (which then says last page) is returned with no request; with none stored the run pages from
      the empty timeline, saving after every page, until a page says last page or the fuel runs out. */
  ghost predicate PagedRun(d: LegacyDisk, page: nat -> Page, fuel: nat, tl: Timeline, pages: PageTrace<LegacyDisk>)
  {
    if d.timeline.Some? then tl == d.timeline.value && pages == PageTrace([], [], [])
    else PagedBy(Empty, d, SaveTimeline, page, fuel, tl, pages)
  }

  /** How the older `main` ended. */
  datatype LegacyOutcome = LegacyAuthFailed(response: Session) | Crashed | LegacyUnfinished(timeline: Timeline) | Done(timeline: Timeline)

  /** The older `main`: authenticate, page, hydrate. A rejected login and the partial-resume crash
      both leave the disk as it was; a completed run leaves `timeline.json` holding the final
      timeline with its flag set, so the next run returns it with no page request. */
  method Archive(d: LegacyDisk, api: LegacyApi, isValidSession: Session -> bool, fuel: nat)
    returns (outcome: LegacyOutcome, d': LegacyDisk, paged: Timeline, pages: PageTrace<LegacyDisk>, order: seq<Id>)
    ensures outcome.LegacyAuthFailed? <==> Authenticate(d.user, api.whoami, isValidSession).Reject?
    ensures outcome.LegacyAuthFailed? ==> d' == d && pages == PageTrace([], [], []) && order == []
    ensures outcome.Crashed? <==> !outcome.LegacyAuthFailed? && d.timeline.Some? && !d.timeline.value.isLastPage
    ensures outcome.Crashed? ==>
      d' == LoggedIn(d, Authenticate(d.user, api.whoami, isValidSession)) && pages == PageTrace([], [], []) && order == []
    ensures outcome.LegacyUnfinished? || outcome.Done? ==>
      PagedRun(LoggedIn(d, Authenticate(d.user, api.whoami, isValidSession)), api.page, fuel, paged, pages)
    ensures outcome.LegacyUnfinished? <==> !outcome.LegacyAuthFailed? && !outcome.Crashed? && !paged.isLastPage
    ensures outcome.LegacyUnfinished? ==> outcome.timeline == paged && order == []
    ensures outcome.LegacyUnfinished? ==>
      var L := LoggedIn(d, Authenticate(d.user, api.whoami, isValidSession));
      d' == (if pages.responses == [] then L else SaveTimeline(L, paged))
    ensures outcome.Done? ==> HydratedBy(paged, api.fullPost, order, outcome.timeline)
    ensures outcome.Done? ==> d'.timeline == Some(outcome.timeline) && outcome.timeline.isLastPage
    ensures outcome.Done? ==> d'.user == LoggedIn(d, Authenticate(d.user, api.whoami, isValidSession)).user
  {
    var decision := Authenticate(d.user, api.whoami, isValidSession);
    if decision.Reject? {
      return LegacyAuthFailed(decision.response), d, Empty, PageTrace([], [], []), [];
    }
    var d1 := LoggedIn(d, decision);
    var d2, end, offsets, responses, disks;
    paged, d2, end, offsets, responses, disks := GetPostsTimeline(d1, api.page, fuel);
    pages := PageTrace(offsets, responses, disks);
    if end == ReferenceError {
      return Crashed, d2, paged, pages, [];
    }
    if end == FuelExhausted {
      return LegacyUnfinished(paged), d2, paged, pages, [];
    }
    assert d2.timeline == Some(paged) && paged.isLastPage;
    var full, d3, hydrated;
    full, d3, order, hydrated := HydratePosts(paged, d2, api.fullPost);
    outcome, d' := Done(full), d3;
  }
}
