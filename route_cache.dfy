/**
 * The keyed store the loader fills. Storage, eviction and serialization belong to
 * the cache library; only "save this route under this key" is modelled.
 */
module RouteCache {

  import opened Routes

  /** One call of `saveInCache`. */
  datatype Save = Save(key: string, route: ConfiguredRoute)

  class Cache {
    /** What a lookup by key finds. */
    var entries: map<string, ConfiguredRoute>
    /** Every save made so far, in order. */
    ghost var saves: seq<Save>

    constructor ()
      ensures entries == map[] && saves == []
    {
      entries := map[];
      saves := [];
    }

    /** Stores `route` under `key`, replacing whatever was there. */
    method SaveInCache(key: string, route: ConfiguredRoute)
      modifies this
      ensures entries == old(entries)[key := route]
      ensures saves == old(saves) + [Save(key, route)]
    {
      entries := entries[key := route];
      saves := saves + [Save(key, route)];
    }
  }

  /** The store after saving each route, in order, under its key. */
  function PutAll(m: map<string, ConfiguredRoute>, rs: seq<ConfiguredRoute>): map<string, ConfiguredRoute>
  {
    if rs == [] then m
    else
      var last := rs[|rs| - 1];
      PutAll(m, rs[..|rs| - 1])[Key(last) := last]
  }

  /** The save calls made for a list of routes: one per route, in order. */
  function SavesOf(rs: seq<ConfiguredRoute>): (s: seq<Save>)
    ensures |s| == |rs|
    ensures forall i :: 0 <= i < |rs| ==> s[i] == Save(Key(rs[i]), rs[i])
  {
    seq(|rs|, i requires 0 <= i < |rs| => Save(Key(rs[i]), rs[i]))
  }

  /** After saving a list of routes the store holds the keys it held before plus the key of every route. */
  lemma {:induction false} PutAllKeys(m: map<string, ConfiguredRoute>, rs: seq<ConfiguredRoute>)
    ensures PutAll(m, rs).Keys == m.Keys + (set r | r in rs :: Key(r))
  {
    if rs != [] {
      var init, last := rs[..|rs| - 1], rs[|rs| - 1];
      PutAllKeys(m, init);
      assert rs == init + [last];
      assert (set r | r in rs :: Key(r)) == (set r | r in init :: Key(r)) + {Key(last)};
    }
  }

  /** Last write wins: a route that no later route shares a key with is what its key finds. */
  lemma {:induction false} PutAllLastWriteWins(m: map<string, ConfiguredRoute>, rs: seq<ConfiguredRoute>, i: nat)
    requires i < |rs|
    requires forall j :: i < j < |rs| ==> Key(rs[j]) != Key(rs[i])
    ensures Key(rs[i]) in PutAll(m, rs) && PutAll(m, rs)[Key(rs[i])] == rs[i]
  {
    if i < |rs| - 1 {
      var init := rs[..|rs| - 1];
      PutAllLastWriteWins(m, init, i);
    }
  }

  /** A key that no route has keeps what it held before. */
  lemma {:induction false} PutAllKeepsOthers(m: map<string, ConfiguredRoute>, rs: seq<ConfiguredRoute>, k: string)
    requires forall j :: 0 <= j < |rs| ==> Key(rs[j]) != k
    ensures k in PutAll(m, rs) <==> k in m
    ensures k in m ==> PutAll(m, rs)[k] == m[k]
  {
    if rs != [] {
      PutAllKeepsOthers(m, rs[..|rs| - 1], k);
    }
  }
}
