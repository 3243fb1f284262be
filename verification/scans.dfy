/**
 * Facts shared by the two stores about scanning a table keyed by id: what it
 * means for a scan result to list exactly the matching entries, and how long
 * such a result is.
 */
module Scans {
  import opened Domain

  /** Every entry is filed under its own id. */
  ghost predicate Keyed<T>(store: map<Guid, T>, key: T -> Guid) {
    forall id :: id in store ==> key(store[id]) == id
  }

  /** No id occurs twice in a scan result. */
  ghost predicate DistinctKeys<T>(r: seq<T>, key: T -> Guid) {
    forall i, j :: 0 <= i < j < |r| ==> key(r[i]) != key(r[j])
  }

  /** `r` lists exactly the stored entries that satisfy `keep`, each once. */
  ghost predicate Lists<T>(r: seq<T>, store: map<Guid, T>, key: T -> Guid, keep: T -> bool) {
    && (forall i :: 0 <= i < |r| ==> key(r[i]) in store && store[key(r[i])] == r[i] && keep(r[i]))
    && (forall id :: id in store && keep(store[id]) ==> store[id] in r)
    && DistinctKeys(r, key)
  }

  /** The ids a scan result holds. */
  ghost function KeysOf<T>(r: seq<T>, key: T -> Guid): (ids: set<Guid>)
    ensures forall i :: 0 <= i < |r| ==> key(r[i]) in ids
  {
    set x | x in r :: key(x)
  }

  /** A sequence without repeated ids holds as many ids as it has elements. */
  lemma {:induction false} DistinctKeysCount<T>(r: seq<T>, key: T -> Guid)
    requires DistinctKeys(r, key)
    ensures |KeysOf(r, key)| == |r|
  {
    if r != [] {
      var rest := r[1..];
      assert DistinctKeys(rest, key) by {
        forall i, j | 0 <= i < j < |rest| ensures key(rest[i]) != key(rest[j]) {
          assert rest[i] == r[i + 1] && rest[j] == r[j + 1];
        }
      }
      DistinctKeysCount(rest, key);
      assert KeysOf(r, key) == KeysOf(rest, key) + {key(r[0])} by {
        assert r == [r[0]] + rest;
      }
      assert key(r[0]) !in KeysOf(rest, key) by {
        forall k | 0 <= k < |rest| ensures key(rest[k]) != key(r[0]) {
          assert rest[k] == r[k + 1];
        }
      }
    }
  }

  /** The ids of the stored entries that satisfy `keep`. */
  ghost function Matching<T>(store: map<Guid, T>, keep: T -> bool): (ids: set<Guid>)
    ensures ids <= store.Keys
  {
    set id | id in store && keep(store[id])
  }

  /**
   * The scan both stores perform: visit every id of the table once, in no
   * particular order, and keep the entries that satisfy `keep`.
   */
  method Scan<T>(store: map<Guid, T>, key: T -> Guid, keep: T -> bool) returns (r: seq<T>)
    requires Keyed(store, key)
    ensures Lists(r, store, key, keep)
  {
    var pending := store.Keys;
    r := [];
    while pending != {}
      invariant pending <= store.Keys
      invariant forall i :: 0 <= i < |r| ==>
        key(r[i]) in store.Keys - pending && store[key(r[i])] == r[i] && keep(r[i])
      invariant forall id :: id in store.Keys - pending && keep(store[id]) ==> store[id] in r
      invariant DistinctKeys(r, key)
      decreases pending
    {
      var id :| id in pending;
      if keep(store[id]) {
        r := r + [store[id]];
      }
      pending := pending - {id};
    }
  }

  /** A scan returns as many entries as there are stored entries it matches. */
  lemma ListsSize<T>(r: seq<T>, store: map<Guid, T>, key: T -> Guid, keep: T -> bool)
    requires Keyed(store, key)
    requires Lists(r, store, key, keep)
    ensures |r| == |Matching(store, keep)|
  {
    DistinctKeysCount(r, key);
    var matched := Matching(store, keep);
    forall id | id in matched ensures id in KeysOf(r, key) {
      assert store[id] in r;
    }
    assert KeysOf(r, key) == matched;
  }

  /** A scan result without repeated ids whose every element is `x`, and that holds `x`, is exactly `[x]`. */
  lemma OnlyElement<T>(r: seq<T>, key: T -> Guid, x: T)
    requires DistinctKeys(r, key)
    requires x in r && forall i :: 0 <= i < |r| ==> r[i] == x
    ensures r == [x]
  {
    DistinctKeysCount(r, key);
    assert KeysOf(r, key) == {key(x)};
  }
}
