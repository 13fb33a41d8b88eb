/** `writeAPIData`: where a JSON file of the archive goes. The server folder is the second piece of
    `config.server.split('//')`, and the path is repo root / data folder / server folder /
    username / file. */
module Writer {
  import opened Options

  /** A `//` starts at index `i` of `s`. */
  predicate SeparatorAt(s: string, i: int)
  {
    0 <= i && i + 1 < |s| && s[i] == '/' && s[i + 1] == '/'
  }

  /** No `//` starts at an index in `[lo, hi)`. */
  predicate NoSeparatorIn(s: string, lo: int, hi: int)
  {
    forall j :: lo <= j < hi ==> !SeparatorAt(s, j)
  }

  /** `i` is where the first `//` of `s` starts. */
  predicate IsFirstSeparator(s: string, i: int)
  {
    SeparatorAt(s, i) && NoSeparatorIn(s, 0, i)
  }

  /** The first `//` of `s` at or after `from`, scanning left to right as `split` does. */
  function FindSeparator(s: string, from: nat): (r: Option<nat>)
    requires from <= |s|
    ensures r.Some? ==> from <= r.value && SeparatorAt(s, r.value) && NoSeparatorIn(s, from, r.value)
    ensures r.None? ==> NoSeparatorIn(s, from, |s|)
    decreases |s| - from
  {
    if from + 1 >= |s| then None
    else if s[from] == '/' && s[from + 1] == '/' then Some(from)
    else FindSeparator(s, from + 1)
  }

  /** The pieces joined back with `//` between them. */
  function Join(pieces: seq<string>): string
    requires |pieces| >= 1
    decreases |pieces|
  {
    if |pieces| == 1 then pieces[0] else pieces[0] + "//" + Join(pieces[1..])
  }

  /** `s.split('//')`: the text between successive non-overlapping `//`, found left to right. No
      piece contains `//`, there is one piece exactly when `s` has no `//`, and the first piece
      runs up to the first `//` (or the end). */
  function Split(s: string): (pieces: seq<string>)
    ensures |pieces| >= 1
    ensures forall k :: 0 <= k < |pieces| ==> NoSeparatorIn(pieces[k], 0, |pieces[k]|)
    ensures |pieces| == 1 <==> NoSeparatorIn(s, 0, |s|)
    ensures pieces[0] <= s && NoSeparatorIn(s, 0, |pieces[0]|)
    ensures |pieces[0]| == |s| || SeparatorAt(s, |pieces[0]|)
    decreases |s|
  {
    match FindSeparator(s, 0)
    case None => [s]
    case Some(i) =>
      var head := s[..i];
      var rest := Split(s[i + 2..]);
      assert forall j :: 0 <= j < |head| ==> (SeparatorAt(head, j) ==> SeparatorAt(s, j));
      [head] + rest
  }

  /** Joining the pieces of `split('//')` with `//` gives the text back. */
  lemma {:induction false} SplitJoin(s: string)
    ensures Join(Split(s)) == s
    decreases |s|
  {
    match FindSeparator(s, 0)
    case None =>
    case Some(i) =>
      var head, tail := s[..i], s[i + 2..];
      SplitJoin(tail);
      assert Split(s) == [head] + Split(tail);
      JoinCons(head, Split(tail));
      assert s == head + "//" + tail;
  }

  /** Joining a piece in front of at least one more puts `//` between it and the rest joined. */
  lemma JoinCons(head: string, rest: seq<string>)
    requires |rest| >= 1
    ensures Join([head] + rest) == head + "//" + Join(rest)
  {
    assert ([head] + rest)[1..] == rest;
  }

  /** `config.server.split('//')[1]`: `None` (JavaScript `undefined`) when the server has no `//`;
      otherwise the text after the first `//` up to the next `//` or the end, which therefore
      never contains `//` itself. */
  function ServerFolder(server: string): (r: Option<string>)
    ensures r.None? <==> NoSeparatorIn(server, 0, |server|)
    ensures r.Some? ==> NoSeparatorIn(r.value, 0, |r.value|)
    ensures forall i :: IsFirstSeparator(server, i) ==>
      && r.Some?
      && r.value <= server[i + 2..]
      && NoSeparatorIn(server, i + 2, i + 2 + |r.value|)
      && (i + 2 + |r.value| == |server| || SeparatorAt(server, i + 2 + |r.value|))
  {
    var pieces := Split(server);
    if |pieces| >= 2 then
      FolderAfterFirstSeparator(server);
      Some(pieces[1])
    else None
  }

  lemma FirstSeparatorUnique(s: string, i: int, j: int)
    requires IsFirstSeparator(s, i) && IsFirstSeparator(s, j)
    ensures i == j
  {
  }

  /** The second piece of the split is the text after the first `//`, up to the next or the end. */
  lemma SecondPieceAt(server: string) returns (i0: nat)
    requires |Split(server)| >= 2
    ensures IsFirstSeparator(server, i0)
    ensures var f := Split(server)[1];
      && f <= server[i0 + 2..]
      && NoSeparatorIn(server, i0 + 2, i0 + 2 + |f|)
      && (i0 + 2 + |f| == |server| || SeparatorAt(server, i0 + 2 + |f|))
  {
    SplitHasSeparator(server);
    i0 := FindSeparator(server, 0).value;
    var t := server[i0 + 2..];
    SecondPieceFollowsSeparator(server, i0);
    ShiftedSeparators(server, i0 + 2, |Split(t)[0]|);
  }

  /** Two pieces mean there is a `//`. */
  lemma SplitHasSeparator(server: string)
    requires |Split(server)| >= 2
    ensures FindSeparator(server, 0).Some?
  {
  }

  /** Past the first `//`, the pieces are the pieces of the rest. */
  lemma SecondPieceFollowsSeparator(server: string, i0: nat)
    requires FindSeparator(server, 0) == Some(i0)
    ensures |Split(server)| >= 2 && Split(server)[1] == Split(server[i0 + 2..])[0]
  {
    assert Split(server) == [server[..i0]] + Split(server[i0 + 2..]);
  }

  /** Separators of a suffix are separators of the whole text, shifted by where the suffix starts. */
  lemma ShiftedSeparators(server: string, from: nat, n: nat)
    requires from <= |server|
    requires NoSeparatorIn(server[from..], 0, n)
    ensures NoSeparatorIn(server, from, from + n)
    ensures SeparatorAt(server[from..], n) ==> SeparatorAt(server, from + n)
  {
    var t := server[from..];
    forall j | from <= j < from + n ensures !SeparatorAt(server, j) {
      assert !SeparatorAt(t, j - from);
    }
  }

  lemma FolderAfterFirstSeparator(server: string)
    requires |Split(server)| >= 2
    ensures forall i :: IsFirstSeparator(server, i) ==>
      && Split(server)[1] <= server[i + 2..]
      && NoSeparatorIn(server, i + 2, i + 2 + |Split(server)[1]|)
      && (i + 2 + |Split(server)[1]| == |server| || SeparatorAt(server, i + 2 + |Split(server)[1]|))
  {
    var i0 := SecondPieceAt(server);
    FolderAtFirstSeparator(server, i0, Split(server)[1]);
  }

  /** What follows the first `//` does not depend on how that separator was found. */
  lemma FolderAtFirstSeparator(server: string, i0: int, f: string)
    requires IsFirstSeparator(server, i0)
    requires f <= server[i0 + 2..] && NoSeparatorIn(server, i0 + 2, i0 + 2 + |f|)
    requires i0 + 2 + |f| == |server| || SeparatorAt(server, i0 + 2 + |f|)
    ensures forall i :: IsFirstSeparator(server, i) ==>
      && f <= server[i + 2..]
      && NoSeparatorIn(server, i + 2, i + 2 + |f|)
      && (i + 2 + |f| == |server| || SeparatorAt(server, i + 2 + |f|))
  {
    forall i | IsFirstSeparator(server, i)
      ensures f <= server[i + 2..] && NoSeparatorIn(server, i + 2, i + 2 + |f|)
      ensures i + 2 + |f| == |server| || SeparatorAt(server, i + 2 + |f|)
    {
      FirstSeparatorUnique(server, i, i0);
    }
  }

  /** A filesystem step of `writeAPIData`: `mkdirSync(dir, {recursive: true})`, then the JSON write. */
  datatype FsOp = MakeDirs(dir: seq<string>) | WriteJson(path: seq<string>, json: string)

  /** The steps `writeAPIData(filePath, data)` takes, with the path as its segments before
      `path.resolve` joins them. With no server folder `path.resolve` throws and nothing happens
      (`None`). Otherwise the segments are repo root, data folder, server folder, username and
      file, in that order, and the file's directory is created before the file is written. */
  function WriteApiData(repoRoot: string, dataFolder: string, server: string, username: string,
                        filePath: string, json: string): (r: Option<seq<FsOp>>)
    ensures r.None? <==> NoSeparatorIn(server, 0, |server|)
    ensures r.Some? ==>
      && |r.value| == 2
      && r.value[0].MakeDirs? && r.value[1].WriteJson?
      && r.value[0].dir + [filePath] == r.value[1].path
      && r.value[1].json == json
      && r.value[1].path == [repoRoot, dataFolder, ServerFolder(server).value, username, filePath]
      && NoSeparatorIn(r.value[1].path[2], 0, |r.value[1].path[2]|)
  {
    match ServerFolder(server)
    case None => None
    case Some(folder) =>
      var path := [repoRoot, dataFolder, folder, username, filePath];
      Some([MakeDirs(path[..4]), WriteJson(path, json)])
  }
}
