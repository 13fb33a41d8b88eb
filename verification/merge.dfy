/** Insert-or-overwrite by id, the merge rule of every stage (`collection[record.id] = record`
    inside a `forEach`), and the enumeration of id sets the loops iterate over. */
module Merge {
  import opened Entities

  /** The ids carried by the records of `xs`. */
  function KeysOf<T>(xs: seq<T>, key: T -> Id): set<Id>
  {
    set i | 0 <= i < |xs| :: key(xs[i])
  }

  /** No record after `xs[i]` carries the same id. */
  ghost predicate IsLastWithKey<T>(xs: seq<T>, key: T -> Id, i: int)
    requires 0 <= i < |xs|
  {
    forall j :: i < j < |xs| ==> key(xs[j]) != key(xs[i])
  }

  /** `r` is `m` with the records of `xs` written over it in order: no key is lost, keys no
      record carries keep their value, and every id ends up holding the LAST record with it. */
  ghost predicate Overlays<T>(r: map<Id, T>, m: map<Id, T>, xs: seq<T>, key: T -> Id)
  {
    && r.Keys == m.Keys + KeysOf(xs, key)
    && (forall k :: k in m && k !in KeysOf(xs, key) ==> r[k] == m[k])
    && (forall i :: 0 <= i < |xs| && IsLastWithKey(xs, key, i) ==> r[key(xs[i])] == xs[i])
  }

  lemma KeysOfCons<T>(xs: seq<T>, key: T -> Id)
    requires |xs| > 0
    ensures KeysOf(xs, key) == {key(xs[0])} + KeysOf(xs[1..], key)
  {
    var tail := xs[1..];
    forall k | k in KeysOf(xs, key) ensures k in {key(xs[0])} + KeysOf(tail, key) {
      var i :| 0 <= i < |xs| && key(xs[i]) == k;
      if i > 0 {
        assert tail[i - 1] == xs[i];
      }
    }
    forall k | k in KeysOf(tail, key) ensures k in KeysOf(xs, key) {
      var i :| 0 <= i < |tail| && key(tail[i]) == k;
      assert xs[i + 1] == tail[i];
    }
  }

  lemma KeysOfSnoc<T>(xs: seq<T>, key: T -> Id)
    requires |xs| > 0
    ensures KeysOf(xs, key) == KeysOf(xs[..|xs| - 1], key) + {key(xs[|xs| - 1])}
  {
    var front := xs[..|xs| - 1];
    forall k | k in KeysOf(xs, key) ensures k in KeysOf(front, key) + {key(xs[|xs| - 1])} {
      var i :| 0 <= i < |xs| && key(xs[i]) == k;
      if i < |front| {
        assert front[i] == xs[i];
      }
    }
    forall k | k in KeysOf(front, key) ensures k in KeysOf(xs, key) {
      var i :| 0 <= i < |front| && key(front[i]) == k;
      assert xs[i] == front[i];
    }
  }

  /** Writes the records of `xs` into `m` one after another, each under its own id. */
  function Upsert<T>(m: map<Id, T>, xs: seq<T>, key: T -> Id): map<Id, T>
    decreases |xs|
  {
    if |xs| == 0 then m else Upsert(m[key(xs[0]) := xs[0]], xs[1..], key)
  }

  /** The insert-or-overwrite loop keeps every key, leaves ids no record carries alone, and
      leaves each id holding the last record with it. */
  lemma {:induction false} UpsertOverlays<T>(m: map<Id, T>, xs: seq<T>, key: T -> Id)
    ensures Overlays(Upsert(m, xs, key), m, xs, key)
    decreases |xs|
  {
    if |xs| > 0 {
      var tail := xs[1..];
      UpsertOverlays(m[key(xs[0]) := xs[0]], tail, key);
      KeysOfCons(xs, key);
      assert forall i :: 0 < i < |xs| ==> tail[i - 1] == xs[i];
      assert IsLastWithKey(xs, key, 0) ==> key(xs[0]) !in KeysOf(tail, key);
    }
  }

  /** Writing `xs` then `ys` is writing `xs + ys`: merging page after page is one merge of all
      their records, so the later record wins across pages just as within one. */
  lemma {:induction false} UpsertConcat<T>(m: map<Id, T>, xs: seq<T>, ys: seq<T>, key: T -> Id)
    ensures Upsert(m, xs + ys, key) == Upsert(Upsert(m, xs, key), ys, key)
    decreases |xs|
  {
    if |xs| == 0 {
      assert xs + ys == ys;
    } else {
      assert (xs + ys)[0] == xs[0];
      assert (xs + ys)[1..] == xs[1..] + ys;
      UpsertConcat(m[key(xs[0]) := xs[0]], xs[1..], ys, key);
    }
  }

  /** Every id of `xs` has a last record carrying it. */
  lemma {:induction false} LastWithKeyExists<T>(xs: seq<T>, key: T -> Id, k: Id) returns (i: nat)
    requires k in KeysOf(xs, key)
    ensures i < |xs| && key(xs[i]) == k && IsLastWithKey(xs, key, i)
    decreases |xs|
  {
    var n := |xs| - 1;
    if key(xs[n]) == k {
      i := n;
    } else {
      var front := xs[..n];
      var w :| 0 <= w < |xs| && key(xs[w]) == k;
      assert front[w] == xs[w];
      i := LastWithKeyExists(front, key, k);
      assert front[i] == xs[i];
      forall j | i < j < |xs| ensures key(xs[j]) != key(xs[i]) {
        if j < n {
          assert front[j] == xs[j];
        }
      }
    }
  }

  /** `Overlays` pins the merged map down completely: the insert-or-overwrite rule leaves no
      freedom in the result. */
  lemma OverlaysUnique<T>(r1: map<Id, T>, r2: map<Id, T>, m: map<Id, T>, xs: seq<T>, key: T -> Id)
    requires Overlays(r1, m, xs, key) && Overlays(r2, m, xs, key)
    ensures r1 == r2
  {
    forall k | k in r1.Keys ensures r1[k] == r2[k] {
      if k in KeysOf(xs, key) {
        var i := LastWithKeyExists(xs, key, k);
      }
    }
  }

  /** The ids of two sequences one after the other are the ids of each. */
  lemma KeysOfConcat<T>(xs: seq<T>, ys: seq<T>, key: T -> Id)
    ensures KeysOf(xs + ys, key) == KeysOf(xs, key) + KeysOf(ys, key)
  {
    var zs := xs + ys;
    forall k | k in KeysOf(zs, key) ensures k in KeysOf(xs, key) + KeysOf(ys, key) {
      var i :| 0 <= i < |zs| && key(zs[i]) == k;
      if i < |xs| {
        assert zs[i] == xs[i];
      } else {
        assert zs[i] == ys[i - |xs|];
      }
    }
    forall k | k in KeysOf(xs, key) ensures k in KeysOf(zs, key) {
      var i :| 0 <= i < |xs| && key(xs[i]) == k;
      assert zs[i] == xs[i];
    }
    forall k | k in KeysOf(ys, key) ensures k in KeysOf(zs, key) {
      var i :| 0 <= i < |ys| && key(ys[i]) == k;
      assert zs[i + |xs|] == ys[i];
    }
  }

  /** Every record's id is among the ids of its sequence. */
  lemma KeysOfMembers<T>(xs: seq<T>, key: T -> Id)
    ensures forall x :: x in xs ==> key(x) in KeysOf(xs, key)
  {
    forall x | x in xs ensures key(x) in KeysOf(xs, key) {
      var i :| 0 <= i < |xs| && xs[i] == x;
    }
  }

  /** A duplicate-free sequence has as many members as elements. */
  lemma {:induction false} DistinctCardinality(ks: seq<Id>)
    requires forall i, j :: 0 <= i < j < |ks| ==> ks[i] != ks[j]
    ensures |(set k | k in ks)| == |ks|
    decreases |ks|
  {
    if ks != [] {
      var tail := ks[1..];
      DistinctCardinality(tail);
      assert (set k | k in ks) == {ks[0]} + (set k | k in tail);
      assert ks[0] !in (set k | k in tail) by {
        forall j | 0 <= j < |tail| ensures tail[j] != ks[0] {
          assert tail[j] == ks[j + 1];
        }
      }
    }
  }

  /** An enumeration of `s` in some order, each member once: the model's stand-in for the
      insertion order of `Object.keys` / `Object.values`, which it does not track. */
  method Enumerate(s: set<Id>) returns (ks: seq<Id>)
    ensures forall k :: k in ks <==> k in s
    ensures forall i, j :: 0 <= i < j < |ks| ==> ks[i] != ks[j]
  {
    ks := [];
    var rest := s;
    while rest != {}
      invariant forall k :: k in s <==> k in rest || k in ks
      invariant forall k :: k in ks ==> k !in rest
      invariant forall i, j :: 0 <= i < j < |ks| ==> ks[i] != ks[j]
      decreases |rest|
    {
      var k :| k in rest;
      ks := ks + [k];
      rest := rest - {k};
    }
  }
}
