/** The asset stage: URL worklists built from the users and attachments, and the download loop
    gated on whether a file already exists at the URL's path. */
module Assets {
  import opened Entities
  import opened Merge

  /** The profile picture URL of every user that has a non-empty one, in the users' order. */
  function UserpicUrls(users: seq<User>): (urls: seq<Url>)
    ensures |urls| <= |users|
    ensures forall j :: 0 <= j < |users| && Truthy(users[j].profilePictureLargeUrl) ==>
      users[j].profilePictureLargeUrl.value in urls
    ensures forall u :: u in urls ==>
      exists j :: 0 <= j < |users| && Truthy(users[j].profilePictureLargeUrl) && users[j].profilePictureLargeUrl.value == u
    decreases |users|
  {
    if users == [] then []
    else
      var pic := users[0].profilePictureLargeUrl;
      var rest := UserpicUrls(users[1..]);
      assert forall j :: 1 <= j < |users| ==> users[1..][j - 1] == users[j];
      (if Truthy(pic) then [pic.value] else []) + rest
  }

  /** The worklist of a list of users is the worklists of its parts, one after the other: one
      entry per user with a picture, in order. */
  lemma {:induction false} UserpicUrlsConcat(a: seq<User>, b: seq<User>)
    ensures UserpicUrls(a + b) == UserpicUrls(a) + UserpicUrls(b)
    decreases |a|
  {
    if a == [] {
      assert a + b == b;
    } else {
      assert (a + b)[0] == a[0];
      assert (a + b)[1..] == a[1..] + b;
      UserpicUrlsConcat(a[1..], b);
    }
  }

  /** One user contributes its picture URL when it has a non-empty one, and nothing otherwise;
      with `UserpicUrlsConcat` this fixes the worklist of any list of users, entry by entry. */
  lemma UserpicUrlsOfOne(u: User)
    ensures Truthy(u.profilePictureLargeUrl) ==> UserpicUrls([u]) == [u.profilePictureLargeUrl.value]
    ensures !Truthy(u.profilePictureLargeUrl) ==> UserpicUrls([u]) == []
  {
    assert [u][1..] == [];
  }

  /** The URLs one attachment contributes: its `url` when non-empty, then its `thumbnailUrl` when
      non-empty and different from `url`. */
  function AttachmentUrlsOf(a: Attachment): (urls: seq<Url>)
    ensures |urls| <= 2
    ensures Truthy(a.url) ==> |urls| > 0 && urls[0] == a.url.value
    ensures forall u :: u in urls <==>
      (Truthy(a.url) && u == a.url.value) || (Truthy(a.thumbnailUrl) && a.thumbnailUrl != a.url && u == a.thumbnailUrl.value)
    ensures |urls| == 2 ==> urls[0] != urls[1]
  {
    (if Truthy(a.url) then [a.url.value] else [])
      + (if Truthy(a.thumbnailUrl) && a.thumbnailUrl != a.url then [a.thumbnailUrl.value] else [])
  }

  /** The attachment worklist: the URLs of every attachment, attachment after attachment. */
  function AttachmentUrls(attachments: seq<Attachment>): (urls: seq<Url>)
    ensures |urls| <= 2 * |attachments|
    ensures forall j, u :: 0 <= j < |attachments| && u in AttachmentUrlsOf(attachments[j]) ==> u in urls
    ensures forall u :: u in urls ==> exists j :: 0 <= j < |attachments| && u in AttachmentUrlsOf(attachments[j])
    decreases |attachments|
  {
    if attachments == [] then []
    else
      var rest := AttachmentUrls(attachments[1..]);
      assert forall j :: 1 <= j < |attachments| ==> attachments[1..][j - 1] == attachments[j];
      AttachmentUrlsOf(attachments[0]) + rest
  }

  /** One attachment contributes exactly its own URLs; with `AttachmentUrlsConcat` this fixes the
      worklist of any list of attachments, entry by entry. */
  lemma AttachmentUrlsOfOne(a: Attachment)
    ensures AttachmentUrls([a]) == AttachmentUrlsOf(a)
  {
    assert [a][1..] == [];
  }

  /** The worklist of a list of attachments is the worklists of its parts, one after the other:
      an attachment's URLs are listed once per attachment, even when two share a URL. */
  lemma {:induction false} AttachmentUrlsConcat(a: seq<Attachment>, b: seq<Attachment>)
    ensures AttachmentUrls(a + b) == AttachmentUrls(a) + AttachmentUrls(b)
    decreases |a|
  {
    if a == [] {
      assert a + b == b;
    } else {
      assert (a + b)[0] == a[0];
      assert (a + b)[1..] == a[1..] + b;
      AttachmentUrlsConcat(a[1..], b);
    }
  }

  /** `u` is the non-empty picture URL of some user of `users`. */
  ghost predicate IsUserpicOf(users: map<Id, User>, u: Url)
  {
    exists k :: k in users && Truthy(users[k].profilePictureLargeUrl) && users[k].profilePictureLargeUrl.value == u
  }

  /** `u` is one of the URLs some attachment of `attachments` contributes. */
  ghost predicate IsAttachmentUrlOf(attachments: map<Id, Attachment>, u: Url)
  {
    exists k :: k in attachments && u in AttachmentUrlsOf(attachments[k])
  }

  /** What `downloadFiles` has done after the first `i` URLs: `now` holds the files before plus one
      per path of those URLs, the files before are untouched, and `fetched` has one URL per path
      that was missing, each written with what `retrieve` returned for it. */
  ghost predicate DownloadedPrefix(urls: seq<Url>, i: nat, files: map<Path, Bytes>, now: map<Path, Bytes>,
                                   fetched: seq<Url>, pathOf: Url -> Path, retrieve: Url -> Bytes)
    requires i <= |urls|
  {
    && now.Keys == files.Keys + KeysOf(urls[..i], pathOf)
    && (forall p :: p in files ==> now[p] == files[p])
    && KeysOf(fetched, pathOf) == KeysOf(urls[..i], pathOf) - files.Keys
    && (forall j, k :: 0 <= j < k < |fetched| ==> pathOf(fetched[j]) != pathOf(fetched[k]))
    && (forall u :: u in fetched ==> u in urls && pathOf(u) !in files && pathOf(u) in now && now[pathOf(u)] == retrieve(u))
  }

  /** A URL whose path is already present is skipped: the prefix description moves one URL on. */
  lemma SkipKeepsPrefix(urls: seq<Url>, i: nat, files: map<Path, Bytes>, now: map<Path, Bytes>,
                        fetched: seq<Url>, pathOf: Url -> Path, retrieve: Url -> Bytes)
    requires i < |urls| && pathOf(urls[i]) in now
    requires DownloadedPrefix(urls, i, files, now, fetched, pathOf, retrieve)
    ensures DownloadedPrefix(urls, i + 1, files, now, fetched, pathOf, retrieve)
  {
    assert urls[..i + 1][..i] == urls[..i];
    KeysOfSnoc(urls[..i + 1], pathOf);
    var before, after := KeysOf(urls[..i], pathOf), KeysOf(urls[..i + 1], pathOf);
    assert after == before + {pathOf(urls[i])};
    assert pathOf(urls[i]) in files || pathOf(urls[i]) in before;
    assert after - files.Keys == before - files.Keys;
  }

  /** The key-set bookkeeping of a fetch: a path missing from the files written so far joins both
      the written paths and the fetched paths. */
  lemma NewPathKeys(files: set<Path>, now: set<Path>, listed: set<Path>, fetched: set<Path>, p: Path)
    requires now == files + listed && fetched == listed - files && p !in now
    ensures now + {p} == files + (listed + {p}) && fetched + {p} == (listed + {p}) - files
  {
  }

  /** A URL whose path is missing is fetched and written: the prefix description moves one URL on
      with the new file and the URL appended to `fetched`. */
  lemma FetchKeepsPrefix(urls: seq<Url>, i: nat, files: map<Path, Bytes>, now: map<Path, Bytes>,
                         fetched: seq<Url>, pathOf: Url -> Path, retrieve: Url -> Bytes)
    requires i < |urls| && pathOf(urls[i]) !in now
    requires DownloadedPrefix(urls, i, files, now, fetched, pathOf, retrieve)
    ensures DownloadedPrefix(urls, i + 1, files, now[pathOf(urls[i]) := retrieve(urls[i])], fetched + [urls[i]], pathOf, retrieve)
  {
    var u := urls[i];
    assert urls[..i + 1][..i] == urls[..i];
    KeysOfSnoc(urls[..i + 1], pathOf);
    var fetched' := fetched + [u];
    assert fetched'[..|fetched|] == fetched;
    KeysOfSnoc(fetched', pathOf);
    assert KeysOf(fetched', pathOf) == KeysOf(fetched, pathOf) + {pathOf(u)};
    var now' := now[pathOf(u) := retrieve(u)];
    assert now'.Keys == now.Keys + {pathOf(u)};
    NewPathKeys(files.Keys, now.Keys, KeysOf(urls[..i], pathOf), KeysOf(fetched, pathOf), pathOf(u));
    forall j, k | 0 <= j < k < |fetched'| ensures pathOf(fetched'[j]) != pathOf(fetched'[k]) {
      if k == |fetched| {
        assert pathOf(fetched[j]) in now;
      } else {
        assert fetched'[j] == fetched[j] && fetched'[k] == fetched[k];
      }
    }
    forall v | v in fetched'
      ensures v in urls && pathOf(v) !in files && pathOf(v) in now' && now'[pathOf(v)] == retrieve(v)
    {
      if v != u {
        assert v in fetched;
      }
    }
  }

  /** `downloadFiles`: for each URL in order, fetch it with `retrieve` and write it at `pathOf(url)`
      unless a file already exists there. The files present before are never rewritten, every
      worklist path ends up present, and the fetched URLs are exactly one per path that was
      missing, so a URL listed twice is fetched at most once. */
  method DownloadFiles(urls: seq<Url>, files: map<Path, Bytes>, pathOf: Url -> Path, retrieve: Url -> Bytes)
    returns (files': map<Path, Bytes>, fetched: seq<Url>)
    ensures files'.Keys == files.Keys + KeysOf(urls, pathOf)
    ensures forall p :: p in files ==> files'[p] == files[p]
    ensures KeysOf(fetched, pathOf) == KeysOf(urls, pathOf) - files.Keys
    ensures forall i, j :: 0 <= i < j < |fetched| ==> pathOf(fetched[i]) != pathOf(fetched[j])
    ensures forall u :: u in fetched ==> u in urls && pathOf(u) !in files && files'[pathOf(u)] == retrieve(u)
  {
    files', fetched := files, [];
    for i := 0 to |urls|
      invariant DownloadedPrefix(urls, i, files, files', fetched, pathOf, retrieve)
    {
      var url := urls[i];
      if pathOf(url) in files' {
        SkipKeepsPrefix(urls, i, files, files', fetched, pathOf, retrieve);
      } else {
        FetchKeepsPrefix(urls, i, files, files', fetched, pathOf, retrieve);
        var file := retrieve(url);
        files' := files'[pathOf(url) := file];
        fetched := fetched + [url];
      }
    }
    assert urls[..|urls|] == urls;
  }

  /** What `downloadFiles` promises about one call, as a predicate over its inputs and outputs. */
  ghost predicate Downloaded(urls: seq<Url>, files: map<Path, Bytes>, files': map<Path, Bytes>, fetched: seq<Url>,
                             pathOf: Url -> Path, retrieve: Url -> Bytes)
  {
    && files'.Keys == files.Keys + KeysOf(urls, pathOf)
    && (forall p :: p in files ==> files'[p] == files[p])
    && KeysOf(fetched, pathOf) == KeysOf(urls, pathOf) - files.Keys
    && (forall i, j :: 0 <= i < j < |fetched| ==> pathOf(fetched[i]) != pathOf(fetched[j]))
    && (forall u :: u in fetched ==> u in urls && pathOf(u) !in files && files'[pathOf(u)] == retrieve(u))
  }

  /** Two downloads in a row, the second over the files the first left, act as one download of
      both worklists: the fetched URLs of both runs together are one per path missing before the
      first, each written with what `retrieve` returned for it. */
  lemma DownloadedTwice(xs: seq<Url>, ys: seq<Url>, files: map<Path, Bytes>, mid: map<Path, Bytes>, files': map<Path, Bytes>,
                        first: seq<Url>, second: seq<Url>, pathOf: Url -> Path, retrieve: Url -> Bytes)
    requires Downloaded(xs, files, mid, first, pathOf, retrieve)
    requires Downloaded(ys, mid, files', second, pathOf, retrieve)
    ensures files'.Keys == files.Keys + KeysOf(xs, pathOf) + KeysOf(ys, pathOf)
    ensures forall p :: p in files ==> files'[p] == files[p]
    ensures KeysOf(first + second, pathOf) == (KeysOf(xs, pathOf) + KeysOf(ys, pathOf)) - files.Keys
    ensures forall i, j :: 0 <= i < j < |first + second| ==> pathOf((first + second)[i]) != pathOf((first + second)[j])
    ensures forall u :: u in first + second ==> pathOf(u) !in files && files'[pathOf(u)] == retrieve(u)
    ensures forall u :: u in first + second ==> u in xs || u in ys
  {
    var fetched := first + second;
    KeysOfConcat(first, second, pathOf);
    forall i, j | 0 <= i < j < |fetched| ensures pathOf(fetched[i]) != pathOf(fetched[j]) {
      if j < |first| {
        assert fetched[i] == first[i] && fetched[j] == first[j];
      } else if i >= |first| {
        assert fetched[i] == second[i - |first|] && fetched[j] == second[j - |first|];
      } else {
        assert fetched[i] in first && fetched[j] in second;
      }
    }
  }
}
