/**
 Reconciling stored entries with a provider's listing: doRefreshTorrents and
 detectTorrentChanges (pkg/manager/torrent.go), over ForEachBatch (pkg/storage/entry.go).
 */
module Reconcile {
  import opened Wrappers
  import opened Placements

  /** A torrent as the provider lists it. */
  datatype Remote = Remote(infoHash: string, id: string, status: string, added: int)

  /** An entry as the store holds it. */
  datatype Stored = Stored(infoHash: string, providers: Placements, activeProvider: string)

  type RemoteByHash = map<string, Remote>

  /** A value that cannot be decoded is None. */
  type Store = map<string, Option<Stored>>

  ghost predicate RemoteKeyed(remote: RemoteByHash) {
    forall h :: h in remote ==> remote[h].infoHash == h
  }

  ghost predicate Keyed(store: Store) {
    forall h :: h in store && store[h].Some? ==> store[h].value.infoHash == h
  }

  predicate NeedsUpdate(p: Placement, r: Remote) {
    p.id != r.id || p.status != r.status || p.files == 0
  }

  // ---- the listing by hash

  function LatestByHash(listing: seq<Remote>): RemoteByHash {
    if listing == [] then map[] else
      var m := LatestByHash(listing[..|listing| - 1]);
      var t := listing[|listing| - 1];
      if t.infoHash !in m || t.added > m[t.infoHash].added then m[t.infoHash := t] else m
  }

  /** `r` is listed at `i`, nothing with its hash is newer, and nothing as new comes before it. */
  ghost predicate FirstNewest(listing: seq<Remote>, i: int, r: Remote) {
    && 0 <= i < |listing| && listing[i] == r
    && forall j :: 0 <= j < |listing| && listing[j].infoHash == r.infoHash ==>
         listing[j].added <= r.added && (listing[j].added == r.added ==> i <= j)
  }

  lemma {:induction false} LatestKeys(listing: seq<Remote>)
    ensures forall h :: h in LatestByHash(listing) <==> exists j :: 0 <= j < |listing| && listing[j].infoHash == h
    ensures RemoteKeyed(LatestByHash(listing))
  {
    if listing != [] {
      var n := |listing| - 1;
      var init, m := listing[..n], LatestByHash(listing);
      LatestKeys(init);
      forall h ensures h in m <==> exists j :: 0 <= j < |listing| && listing[j].infoHash == h {
        if j :| 0 <= j < |listing| && listing[j].infoHash == h {
          assert j < n ==> init[j].infoHash == h;
        }
        if h in LatestByHash(init) {
          var j :| 0 <= j < |init| && init[j].infoHash == h;
          assert listing[j].infoHash == h;
        }
      }
    }
  }

  lemma FirstNewestStays(init: seq<Remote>, t: Remote, i: int, r: Remote)
    requires FirstNewest(init, i, r) && (t.infoHash == r.infoHash ==> t.added <= r.added)
    ensures FirstNewest(init + [t], i, r)
  {}

  /** Every hash listed, with the first of its newest records. */
  lemma {:induction false} LatestMeaning(listing: seq<Remote>)
    ensures forall h :: h in LatestByHash(listing) <==> exists j :: 0 <= j < |listing| && listing[j].infoHash == h
    ensures RemoteKeyed(LatestByHash(listing))
    ensures forall h :: h in LatestByHash(listing) ==> exists i :: FirstNewest(listing, i, LatestByHash(listing)[h])
  {
    LatestKeys(listing);
    if listing != [] {
      var n := |listing| - 1;
      var init, t, m := listing[..n], listing[n], LatestByHash(listing);
      assert listing == init + [t];
      LatestMeaning(init);
      forall h | h in m ensures exists i :: FirstNewest(listing, i, m[h]) {
        if h in LatestByHash(init) {
          var i :| FirstNewest(init, i, LatestByHash(init)[h]);
          if m[h] == LatestByHash(init)[h] {
            FirstNewestStays(init, t, i, m[h]);
          } else {
            assert FirstNewest(listing, n, t);
          }
        } else {
          assert forall j :: 0 <= j < n ==> init[j].infoHash != h;
          assert FirstNewest(listing, n, t);
        }
      }
    }
  }

  // ---- what is decided about one stored entry

  datatype Verdict = Keep | Renew | Update | Delete

  function Judge(s: Stored, provider: string, remote: RemoteByHash): Verdict {
    if provider in s.providers then
      if s.infoHash !in remote then (if Without(s.providers, provider) == map[] then Delete else Update)
      else if NeedsUpdate(s.providers[provider], remote[s.infoHash]) then Renew
      else Keep
    else if s.infoHash in remote then Renew
    else Keep
  }

  /** The entries with one verdict, in order. */
  function Judged(es: seq<Stored>, v: Verdict, provider: string, remote: RemoteByHash): (r: seq<Stored>)
    ensures forall s :: s in r <==> s in es && Judge(s, provider, remote) == v
  {
    if es == [] then [] else
      var n := |es| - 1;
      assert es == es[..n] + [es[n]];
      Judged(es[..n], v, provider, remote) + if Judge(es[n], provider, remote) == v then [es[n]] else []
  }

  lemma JudgedNext(es: seq<Stored>, s: Stored, v: Verdict, provider: string, remote: RemoteByHash)
    ensures Judged(es + [s], v, provider, remote)
         == Judged(es, v, provider, remote) + if Judge(s, provider, remote) == v then [s] else []
  {
    assert (es + [s])[..|es|] == es;
  }

  /** What removing a provider makes of a stored entry; the switch may choose among completed placements. */
  ghost predicate RemovalOf(s: Stored, t: Stored, provider: string) {
    && t.infoHash == s.infoHash
    && t.providers == Without(s.providers, provider)
    && (s.activeProvider != provider ==> t.activeProvider == s.activeProvider)
    && (s.activeProvider == provider ==> Switched(t.providers, provider, t.activeProvider))
  }

  lemma RemovalMade(s: Stored, t: Stored, provider: string)
    requires t.infoHash == s.infoHash && t.providers == Without(s.providers, provider)
    requires s.activeProvider != provider ==> t.activeProvider == s.activeProvider
    requires s.activeProvider == provider ==> Switched(t.providers, provider, t.activeProvider)
    ensures RemovalOf(s, t, provider)
  {}

  /** The entry has no placement for its active provider: GetActiveProvider finds nothing. */
  predicate Dangles(t: Stored) { ActivePlacement(t.providers, t.activeProvider).None? }

  /** When the active provider is not the one removed, its placement stays exactly when it names another provider. */
  lemma OtherActiveDanglesIff(s: Stored, t: Stored, provider: string)
    requires RemovalOf(s, t, provider) && s.activeProvider != provider
    ensures Dangles(t) <==> Dangles(s) || s.providers[s.activeProvider].provider == provider
  {}

  /**
   When the active provider is the one removed, some order of the map leaves it dangling
   exactly when a completed placement that stays has a name that finds nothing, or when
   nothing need be activated and the removed name finds nothing either.
   */
  lemma RemovedActiveMayDangleIff(s: Stored, provider: string)
    requires s.activeProvider == provider
    ensures var ps := Without(s.providers, provider);
      (exists t :: RemovalOf(s, t, provider) && Dangles(t)) <==>
        || (exists k :: k in ps && ps[k].status == DOWNLOADED && ActivePlacement(ps, ps[k].provider).None?)
        || ((!AnyCompleted(ps) || Mixed(ps)) && ActivePlacement(ps, provider).None?)
  {
    var ps := Without(s.providers, provider);
    if t :| RemovalOf(s, t, provider) && Dangles(t) {
      if Completed(ps, t.activeProvider) {
        var k :| k in ps && ps[k].provider == t.activeProvider && ps[k].status == DOWNLOADED;
        assert ActivePlacement(ps, ps[k].provider).None?;
      }
    }
    if k :| k in ps && ps[k].status == DOWNLOADED && ActivePlacement(ps, ps[k].provider).None? {
      var t := Stored(s.infoHash, ps, ps[k].provider);
      assert Completed(ps, ps[k].provider);
      assert RemovalOf(s, t, provider) && Dangles(t);
    }
    if (!AnyCompleted(ps) || Mixed(ps)) && ActivePlacement(ps, provider).None? {
      var t := Stored(s.infoHash, ps, provider);
      assert RemovalOf(s, t, provider) && Dangles(t);
    }
  }

  /** With placements keyed by name: exactly when the active one was removed and nothing completed is left. */
  lemma ActiveDanglesIff(s: Stored, t: Stored, provider: string)
    requires RemovalOf(s, t, provider)
    requires KeyedByName(s.providers) && "" !in s.providers && !Dangles(s)
    ensures Dangles(t) <==> s.activeProvider == provider && !AnyCompleted(t.providers)
  {
    assert KeyedByName(t.providers);
  }

  /** Removing the active provider while the only other placement is still downloading. */
  lemma RemovalCanDangle()
    ensures
      var a, b := Placement("a", "1", DOWNLOADED, 1), Placement("b", "2", "downloading", 1);
      var s := Stored("h", map["a" := a, "b" := b], "a");
      var t := Stored("h", map["b" := b], "a");
      RemovalOf(s, t, "a") && !Dangles(s) && Dangles(t)
  {
    var a, b := Placement("a", "1", DOWNLOADED, 1), Placement("b", "2", "downloading", 1);
    var ps: Placements := map["a" := a, "b" := b];
    assert Without(ps, "a") == map["b" := b];
    assert !AnyCompleted(map["b" := b]) by {
      assert b.status != DOWNLOADED by { assert |b.status| == 11 && |DOWNLOADED| == 10; }
    }
  }

  /** The record an entry object is written as. */
  function Record(e: Entry): Stored
    reads e
  {
    Stored(e.infoHash, e.providers, e.activeProvider)
  }

  /** The records of a list of entry objects. */
  function Records(es: seq<Entry>): (r: seq<Stored>)
    reads es
  {
    seq(|es|, i requires 0 <= i < |es| reads es => Record(es[i]))
  }

  // ---- what the three lists and the set of hashes hold after visiting `done`

  ghost predicate RenewList(list: seq<Remote>, done: seq<Stored>, provider: string, remote: RemoteByHash) {
    var renew := Judged(done, Renew, provider, remote);
    && |list| == |renew|
    && forall i :: 0 <= i < |renew| ==> renew[i].infoHash in remote && list[i] == remote[renew[i].infoHash]
  }

  ghost predicate UpdateList(list: seq<Stored>, done: seq<Stored>, provider: string, remote: RemoteByHash) {
    var update := Judged(done, Update, provider, remote);
    && |list| == |update|
    && forall i :: 0 <= i < |update| ==> RemovalOf(update[i], list[i], provider)
  }

  ghost predicate DeleteList(list: seq<string>, done: seq<Stored>, provider: string, remote: RemoteByHash) {
    var delete := Judged(done, Delete, provider, remote);
    && |list| == |delete|
    && forall i :: 0 <= i < |delete| ==> list[i] == delete[i].infoHash
  }

  ghost predicate Cached(hashes: set<string>, done: seq<Stored>) {
    forall h :: h in hashes <==> exists s :: s in done && s.infoHash == h
  }

  lemma RenewNext(list: seq<Remote>, done: seq<Stored>, s: Stored, provider: string, remote: RemoteByHash)
    requires RenewList(list, done, provider, remote)
    ensures Judge(s, provider, remote).Renew? ==>
      s.infoHash in remote && RenewList(list + [remote[s.infoHash]], done + [s], provider, remote)
    ensures !Judge(s, provider, remote).Renew? ==> RenewList(list, done + [s], provider, remote)
  {
    JudgedNext(done, s, Renew, provider, remote);
  }

  lemma UpdateNext(list: seq<Stored>, done: seq<Stored>, s: Stored, t: Stored, provider: string, remote: RemoteByHash)
    requires UpdateList(list, done, provider, remote)
    ensures Judge(s, provider, remote).Update? && RemovalOf(s, t, provider) ==>
      UpdateList(list + [t], done + [s], provider, remote)
    ensures !Judge(s, provider, remote).Update? ==> UpdateList(list, done + [s], provider, remote)
  {
    JudgedNext(done, s, Update, provider, remote);
  }

  lemma DeleteNext(list: seq<string>, done: seq<Stored>, s: Stored, provider: string, remote: RemoteByHash)
    requires DeleteList(list, done, provider, remote)
    ensures DeleteList(if Judge(s, provider, remote).Delete? then list + [s.infoHash] else list,
                       done + [s], provider, remote)
  {
    JudgedNext(done, s, Delete, provider, remote);
  }

  lemma CachedNext(hashes: set<string>, done: seq<Stored>, s: Stored)
    requires Cached(hashes, done)
    ensures Cached(hashes + {s.infoHash}, done + [s])
  {
    forall h ensures h in hashes + {s.infoHash} <==> exists t :: t in done + [s] && t.infoHash == h {
      if h == s.infoHash { assert s in done + [s]; }
      if h in hashes {
        var t :| t in done && t.infoHash == h;
        assert t in done + [s];
      }
    }
  }

  ghost predicate Separate(es: seq<Entry>) { forall i, j :: 0 <= i < j < |es| ==> es[i] != es[j] }

  /** ProtoToEntry: one more entry object, decoded from the stored record. */
  method Decode(batch: seq<Entry>, v: Stored, ghost vals: seq<Stored>) returns (more: seq<Entry>)
    requires Separate(batch) && Records(batch) == vals
    ensures |more| == |batch| + 1 && more[..|batch|] == batch && fresh(more[|batch|])
    ensures Separate(more) && Records(more) == vals + [v]
  {
    var entry := new Entry(v.infoHash, v.providers, v.activeProvider);
    more := batch + [entry];
  }

  /** The accumulating state of one detection. */
  class Detector {
    const provider: string
    const remote: RemoteByHash
    const now: int
    var newTorrents: seq<Remote>
    var toUpdate: seq<Entry>
    var toDelete: seq<string>
    var cached: set<string>

    constructor (provider: string, remote: RemoteByHash, now: int)
      ensures this.provider == provider && this.remote == remote && this.now == now
      ensures toUpdate == [] && Matches([])
    {
      this.provider, this.remote, this.now := provider, remote, now;
      newTorrents, toUpdate, toDelete, cached := [], [], [], {};
    }

    ghost predicate Matches(done: seq<Stored>)
      reads this, toUpdate
    {
      && RenewList(newTorrents, done, provider, remote)
      && UpdateList(Records(toUpdate), done, provider, remote)
      && DeleteList(toDelete, done, provider, remote)
      && Cached(cached, done)
    }

    /** One turn of the callback's loop, on an entry decoded from `s`. */
    method Visit(entry: Entry, ghost s: Stored, ghost done: seq<Stored>)
      requires Matches(done)
      requires entry !in toUpdate && Record(entry) == s
      modifies this, entry
      ensures Matches(done + [s])
      ensures toUpdate == old(toUpdate) || toUpdate == old(toUpdate) + [entry]
    {
      hide RenewList, UpdateList, DeleteList, Cached, RemovalOf;
      ghost var before := toUpdate;
      RenewNext(newTorrents, done, s, provider, remote);
      DeleteNext(toDelete, done, s, provider, remote);
      CachedNext(cached, done, s);
      cached := cached + {entry.infoHash};
      var onRemote := entry.infoHash in remote;
      if provider in entry.providers {
        if !onRemote {
          var _, _ := entry.RemoveProvider(provider, now);
          assert RemovalOf(s, Record(entry), provider) by { RemovalMade(s, Record(entry), provider); }
          UpdateNext(Records(before), done, s, Record(entry), provider, remote);
          if entry.providers == map[] {
            toDelete := toDelete + [entry.infoHash];
          } else {
            toUpdate := toUpdate + [entry];
            assert Records(toUpdate) == Records(before) + [Record(entry)];
          }
          return;
        } else if NeedsUpdate(entry.providers[provider], remote[entry.infoHash]) {
          newTorrents := newTorrents + [remote[entry.infoHash]];
        }
      } else if onRemote {
        newTorrents := newTorrents + [remote[entry.infoHash]];
      }
      UpdateNext(Records(before), done, s, s, provider, remote);
    }

    /** The callback: one batch of entries decoded from `vals`. */
    method HandleBatch(batch: seq<Entry>, ghost vals: seq<Stored>, ghost done: seq<Stored>)
      requires Matches(done) && Records(batch) == vals
      requires Separate(batch)
      requires forall e :: e in batch ==> e !in toUpdate
      modifies this, batch
      ensures Matches(done + vals)
      ensures forall e :: e in toUpdate ==> e in old(toUpdate) || e in batch
    {
      hide RenewList, UpdateList, DeleteList, Cached;
      assert done + vals[..0] == done;
      for i := 0 to |batch|
        invariant Matches(done + vals[..i])
        invariant Records(batch)[i..] == vals[i..]
        invariant forall e :: e in toUpdate ==> e in old(toUpdate) || e in batch[..i]
      {
        assert Records(batch)[i] == vals[i] by { assert Records(batch)[i..][0] == vals[i..][0]; }
        Visit(batch[i], vals[i], done + vals[..i]);
        assert done + vals[..i] + [vals[i]] == done + vals[..i + 1];
      }
      assert vals[..|batch|] == vals;
    }
  }

  // ---- the scan of the store

  ghost predicate DistinctHashes(es: seq<Stored>) {
    forall i, j :: 0 <= i < j < |es| ==> es[i].infoHash != es[j].infoHash
  }

  /** `es` holds each decodable entry under a key outside `left` once. */
  ghost predicate Lists(es: seq<Stored>, store: Store, left: set<string>) {
    && DistinctHashes(es)
    && forall s :: s in es <==> s.infoHash in store && s.infoHash !in left && store[s.infoHash] == Some(s)
  }

  lemma ListsNothing(store: Store)
    ensures Lists([], store, store.Keys)
  {}

  lemma ListsNext(es: seq<Stored>, store: Store, left: set<string>, key: string)
    requires Keyed(store) && key in store && key in left && Lists(es, store, left)
    ensures store[key].None? ==> Lists(es, store, left - {key})
    ensures store[key].Some? ==> Lists(es + [store[key].value], store, left - {key})
  {
    if store[key].Some? {
      var v := store[key].value;
      forall s ensures s in es + [v] <==>
        s.infoHash in store && s.infoHash !in left - {key} && store[s.infoHash] == Some(s)
      {}
      assert forall i :: 0 <= i < |es| ==> es[i] in es;
    }
  }

  function Limit(batchSize: nat): nat { if batchSize == 0 then 1 else batchSize }

  /** Every batch is full but the last, which is not empty. */
  ghost predicate InBatches(sizes: seq<nat>, batchSize: nat) {
    forall k :: 0 <= k < |sizes| ==>
      0 < sizes[k] <= Limit(batchSize) && (k < |sizes| - 1 ==> sizes[k] == Limit(batchSize))
  }

  /** Full batches of the limit so far. */
  ghost predicate FullSoFar(sizes: seq<nat>, batchSize: nat, open: nat) {
    open < Limit(batchSize) && forall k :: 0 <= k < |sizes| ==> sizes[k] == Limit(batchSize)
  }

  lemma NoneSeparate()
    ensures Separate([])
  {}

  lemma NothingYet(batchSize: nat)
    ensures FullSoFar([], batchSize, 0)
  {}

  lemma BatchGrows(sizes: seq<nat>, batchSize: nat, open: nat)
    requires FullSoFar(sizes, batchSize, open)
    ensures open + 1 < batchSize ==> FullSoFar(sizes, batchSize, open + 1)
    ensures open + 1 >= batchSize ==> FullSoFar(sizes + [open + 1], batchSize, 0)
  {}

  lemma LastBatch(sizes: seq<nat>, batchSize: nat, open: nat)
    requires FullSoFar(sizes, batchSize, open)
    ensures InBatches(sizes, batchSize)
    ensures open > 0 ==> InBatches(sizes + [open], batchSize)
  {}

  method ForEachBatch(store: Store, unreadable: set<string>, batchSize: nat, d: Detector)
    returns (ok: bool, ghost es: seq<Stored>, ghost sizes: seq<nat>)
    requires Keyed(store) && d.Matches([]) && d.toUpdate == []
    modifies d
    ensures ok <==> unreadable !! store.Keys
    ensures ok ==> d.Matches(es) && Lists(es, store, {})
    ensures InBatches(sizes, batchSize)
    ensures forall e :: e in d.toUpdate ==> fresh(e)
  {
    hide RenewList, UpdateList, DeleteList, Cached, DistinctHashes, FullSoFar, InBatches, Separate;
    var keys := store.Keys;
    var batch: seq<Entry> := [];
    ghost var done: seq<Stored>, vals: seq<Stored> := [], [];
    es, sizes := [], [];
    NothingYet(batchSize);
    NoneSeparate();
    ListsNothing(store);
    assert done + vals == [];
    while keys != {}
      invariant keys <= store.Keys && unreadable !! store.Keys - keys
      invariant d.Matches(done) && Records(batch) == vals && Lists(done + vals, store, keys)
      invariant Separate(batch)
      invariant fresh(set e | e in batch)
      invariant FullSoFar(sizes, batchSize, |batch|)
      invariant forall e :: e in batch ==> e !in d.toUpdate
      invariant forall e :: e in d.toUpdate ==> fresh(e)
      decreases |keys|
    {
      var key :| key in keys;
      LastBatch(sizes, batchSize, |batch|);
      if key in unreadable { return false, [], sizes; }
      ListsNext(done + vals, store, keys, key);
      keys := keys - {key};
      if store[key].None? { continue; }
      var v := store[key].value;
      BatchGrows(sizes, batchSize, |batch|);
      batch := Decode(batch, v, vals);
      assert done + vals + [v] == done + (vals + [v]);
      vals := vals + [v];
      if |batch| >= batchSize {
        sizes := sizes + [|batch|];
        d.HandleBatch(batch, vals, done);
        done, vals := done + vals, [];
        batch := [];
        NoneSeparate();
        assert done + vals == done;
      }
    }
    LastBatch(sizes, batchSize, |batch|);
    if |batch| > 0 {
      sizes := sizes + [|batch|];
      d.HandleBatch(batch, vals, done);
    } else {
      assert done + vals == done;
    }
    es := done + vals;
    return true, es, sizes;
  }

  // ---- the result, in terms of the store

  /** A decodable entry whose placement under this provider's key is absent from the listing. */
  ghost predicate Stale(h: string, store: Store, provider: string, remote: RemoteByHash) {
    h in store && store[h].Some? && provider in store[h].value.providers && h !in remote
  }

  /** Removing the provider leaves this entry without any placement. */
  ghost predicate Emptied(h: string, store: Store, provider: string)
    requires h in store && store[h].Some?
  {
    Without(store[h].value.providers, provider) == map[]
  }

  /** Listed, and uncached, lacking this provider, or stored under it with another id, another status or no files. */
  ghost predicate Wanted(h: string, store: Store, provider: string, remote: RemoteByHash) {
    && h in remote
    && (h in store && store[h].Some? && provider in store[h].value.providers ==>
          var p := store[h].value.providers[provider];
          p.id != remote[h].id || p.status != remote[h].status || p.files == 0)
  }

  /** Each wanted hash once, with the record listed for it. */
  ghost predicate NewExact(list: seq<Remote>, store: Store, provider: string, remote: RemoteByHash) {
    && (forall i :: 0 <= i < |list| ==> list[i].infoHash in remote && list[i] == remote[list[i].infoHash])
    && (forall i, j :: 0 <= i < j < |list| ==> list[i].infoHash != list[j].infoHash)
    && (forall h :: Wanted(h, store, provider, remote) <==> exists i :: 0 <= i < |list| && list[i].infoHash == h)
  }

  /** Each stale entry that keeps a placement once, with this provider's removed. */
  ghost predicate UpdateExact(list: seq<Stored>, store: Store, provider: string, remote: RemoteByHash) {
    && (forall i :: 0 <= i < |list| ==> list[i].infoHash in store && store[list[i].infoHash].Some? &&
                                        RemovalOf(store[list[i].infoHash].value, list[i], provider))
    && DistinctHashes(list)
    && (forall h :: (Stale(h, store, provider, remote) && !Emptied(h, store, provider))
                    <==> exists i :: 0 <= i < |list| && list[i].infoHash == h)
  }

  /** Each stale entry that keeps no placement once. */
  ghost predicate DeleteExact(list: seq<string>, store: Store, provider: string, remote: RemoteByHash) {
    && (forall i, j :: 0 <= i < j < |list| ==> list[i] != list[j])
    && (forall h :: (Stale(h, store, provider, remote) && Emptied(h, store, provider)) <==> h in list)
  }

  lemma {:induction false} JudgedDistinct(es: seq<Stored>, v: Verdict, provider: string, remote: RemoteByHash)
    requires DistinctHashes(es)
    ensures DistinctHashes(Judged(es, v, provider, remote))
  {
    if es != [] {
      var n := |es| - 1;
      var picked := Judged(es[..n], v, provider, remote);
      JudgedDistinct(es[..n], v, provider, remote);
      forall i | 0 <= i < |picked| ensures picked[i].infoHash != es[n].infoHash {
        assert picked[i] in es[..n];
        var j :| 0 <= j < n && es[j] == picked[i];
      }
    }
  }

  lemma DeletesAreExact(list: seq<string>, es: seq<Stored>, store: Store, provider: string, remote: RemoteByHash)
    requires Keyed(store) && Lists(es, store, {}) && DeleteList(list, es, provider, remote)
    ensures DeleteExact(list, store, provider, remote)
  {
    hide Judged;
    var picked := Judged(es, Delete, provider, remote);
    JudgedDistinct(es, Delete, provider, remote);
    forall h ensures (Stale(h, store, provider, remote) && Emptied(h, store, provider)) <==> h in list {
      if Stale(h, store, provider, remote) && Emptied(h, store, provider) {
        assert store[h].value in es;
        assert store[h].value in picked;
      }
      if h in list {
        var i :| 0 <= i < |list| && list[i] == h;
        assert picked[i] in picked;
      }
    }
  }

  lemma UpdatedIff(h: string, list: seq<Stored>, es: seq<Stored>, store: Store, provider: string, remote: RemoteByHash)
    requires Keyed(store) && Lists(es, store, {}) && UpdateList(list, es, provider, remote)
    ensures (Stale(h, store, provider, remote) && !Emptied(h, store, provider))
            <==> exists i :: 0 <= i < |list| && list[i].infoHash == h
  {
    hide Judged;
    var picked := Judged(es, Update, provider, remote);
    if Stale(h, store, provider, remote) && !Emptied(h, store, provider) {
      assert store[h].value in es;
      assert store[h].value in picked;
      var i :| 0 <= i < |picked| && picked[i] == store[h].value;
      assert list[i].infoHash == h;
    }
    if i :| 0 <= i < |list| && list[i].infoHash == h {
      assert picked[i] in picked;
    }
  }

  lemma UpdatesAreExact(list: seq<Stored>, es: seq<Stored>, store: Store, provider: string, remote: RemoteByHash)
    requires Keyed(store) && Lists(es, store, {}) && UpdateList(list, es, provider, remote)
    ensures UpdateExact(list, store, provider, remote)
  {
    hide Judged, Emptied;
    var picked := Judged(es, Update, provider, remote);
    JudgedDistinct(es, Update, provider, remote);
    forall i | 0 <= i < |list| ensures picked[i] in es && list[i].infoHash == picked[i].infoHash {
      assert picked[i] in picked;
    }
    forall h ensures (Stale(h, store, provider, remote) && !Emptied(h, store, provider))
                     <==> exists i :: 0 <= i < |list| && list[i].infoHash == h {
      UpdatedIff(h, list, es, store, provider, remote);
    }
  }

  /** The listed torrents whose hash no decodable entry has. */
  ghost predicate BrandNew(list: seq<Remote>, hashes: set<string>, left: set<string>, remote: RemoteByHash) {
    && (forall i :: 0 <= i < |list| ==> list[i].infoHash in remote && list[i] == remote[list[i].infoHash])
    && (forall i, j :: 0 <= i < j < |list| ==> list[i].infoHash != list[j].infoHash)
    && (forall h :: (h in remote && h !in left && h !in hashes) <==> exists i :: 0 <= i < |list| && list[i].infoHash == h)
  }

  lemma RenewalsAreExact(list: seq<Remote>, es: seq<Stored>, store: Store, provider: string, remote: RemoteByHash)
    requires Keyed(store) && RemoteKeyed(remote) && Lists(es, store, {}) && RenewList(list, es, provider, remote)
    ensures forall i :: 0 <= i < |list| ==> list[i].infoHash in remote && list[i] == remote[list[i].infoHash]
    ensures forall i, j :: 0 <= i < j < |list| ==> list[i].infoHash != list[j].infoHash
    ensures forall h :: (Wanted(h, store, provider, remote) && h in store && store[h].Some?)
                        <==> exists i :: 0 <= i < |list| && list[i].infoHash == h
  {
    hide Judged;
    var picked := Judged(es, Renew, provider, remote);
    JudgedDistinct(es, Renew, provider, remote);
    forall h ensures (Wanted(h, store, provider, remote) && h in store && store[h].Some?)
                     <==> exists i :: 0 <= i < |list| && list[i].infoHash == h {
      if Wanted(h, store, provider, remote) && h in store && store[h].Some? {
        assert store[h].value in es;
        assert store[h].value in picked;
        var i :| 0 <= i < |picked| && picked[i] == store[h].value;
        assert list[i].infoHash == h;
      }
      if i :| 0 <= i < |list| && list[i].infoHash == h {
        assert picked[i] in picked;
      }
    }
  }

  ghost predicate HashIn(h: string, list: seq<Remote>) { exists i :: 0 <= i < |list| && list[i].infoHash == h }

  lemma HashInSum(h: string, a: seq<Remote>, b: seq<Remote>)
    ensures HashIn(h, a + b) <==> HashIn(h, a) || HashIn(h, b)
  {
    if i :| 0 <= i < |a| && a[i].infoHash == h { assert (a + b)[i].infoHash == h; }
    if i :| 0 <= i < |b| && b[i].infoHash == h { assert (a + b)[|a| + i].infoHash == h; }
    if i :| 0 <= i < |a + b| && (a + b)[i].infoHash == h {
      assert if i < |a| then a[i].infoHash == h else b[i - |a|].infoHash == h;
    }
  }

  lemma NewListIsExact(renewed: seq<Remote>, found: seq<Remote>, hashes: set<string>, es: seq<Stored>, store: Store,
                       provider: string, remote: RemoteByHash)
    requires Keyed(store) && RemoteKeyed(remote) && Lists(es, store, {}) && RenewList(renewed, es, provider, remote)
    requires Cached(hashes, es) && BrandNew(found, hashes, {}, remote)
    ensures NewExact(renewed + found, store, provider, remote)
  {
    RenewalsAreExact(renewed, es, store, provider, remote);
    var list := renewed + found;
    hide RenewList, Lists, Cached, Keyed, NeedsUpdate;
    forall h ensures h in hashes <==> h in store && store[h].Some? { CachedMeans(hashes, es, store, h); }
    forall h ensures Wanted(h, store, provider, remote) <==> HashIn(h, list) { HashInSum(h, renewed, found); }
    forall i, j | 0 <= i < j < |list| ensures list[i].infoHash != list[j].infoHash {
      if i < |renewed| <= j {
        assert renewed[i].infoHash in hashes;
        assert found[j - |renewed|].infoHash !in hashes;
      }
    }
  }

  lemma CachedMeans(hashes: set<string>, es: seq<Stored>, store: Store, h: string)
    requires Keyed(store) && Lists(es, store, {}) && Cached(hashes, es)
    ensures h in hashes <==> h in store && store[h].Some?
  {
    if h in store && store[h].Some? { assert store[h].value in es; }
  }

  const REFRESH_BATCH_SIZE := 500

  method DetectTorrentChanges(provider: string, remote: RemoteByHash, store: Store, unreadable: set<string>, now: int)
    returns (ok: bool, newTorrents: seq<Remote>, toUpdate: seq<Entry>, toDelete: seq<string>)
    requires Keyed(store) && RemoteKeyed(remote)
    ensures ok <==> unreadable !! store.Keys
    ensures !ok ==> newTorrents == [] && toUpdate == [] && toDelete == []
    ensures ok ==> NewExact(newTorrents, store, provider, remote)
    ensures ok ==> UpdateExact(Records(toUpdate), store, provider, remote)
    ensures ok ==> DeleteExact(toDelete, store, provider, remote)
    ensures forall e :: e in toUpdate ==> fresh(e)
  {
    hide RenewList, UpdateList, DeleteList, Cached, Lists, NewExact, UpdateExact, DeleteExact;
    var d := new Detector(provider, remote, now);
    ghost var es, sizes;
    ok, es, sizes := ForEachBatch(store, unreadable, REFRESH_BATCH_SIZE, d);
    if !ok { return false, [], [], []; }
    UpdatesAreExact(Records(d.toUpdate), es, store, provider, remote);
    DeletesAreExact(d.toDelete, es, store, provider, remote);
    var found := AddUncached(remote, d.cached);
    NewListIsExact(d.newTorrents, found, d.cached, es, store, provider, remote);
    return true, d.newTorrents + found, d.toUpdate, d.toDelete;
  }

  /** The last loop: what is listed but not cached at all. */
  method AddUncached(remote: RemoteByHash, cached: set<string>) returns (found: seq<Remote>)
    requires RemoteKeyed(remote)
    ensures BrandNew(found, cached, {}, remote)
  {
    found := [];
    var hashes := remote.Keys;
    while hashes != {}
      invariant hashes <= remote.Keys
      invariant BrandNew(found, cached, hashes, remote)
      decreases |hashes|
    {
      var h :| h in hashes;
      ghost var left := hashes;
      hashes := hashes - {h};
      BrandNewNext(found, cached, left, h, remote);
      if h !in cached {
        found := found + [remote[h]];
      }
    }
  }

  lemma BrandNewNext(list: seq<Remote>, hashes: set<string>, left: set<string>, h: string, remote: RemoteByHash)
    requires RemoteKeyed(remote) && h in left && h in remote && BrandNew(list, hashes, left, remote)
    ensures BrandNew(if h in hashes then list else list + [remote[h]], hashes, left - {h}, remote)
  {
    if h !in hashes {
      var more := list + [remote[h]];
      forall g ensures (g in remote && g !in left - {h} && g !in hashes)
                       <==> exists i :: 0 <= i < |more| && more[i].infoHash == g {
        if g == h { assert more[|list|].infoHash == g; }
        if i :| 0 <= i < |list| && list[i].infoHash == g { assert more[i].infoHash == g; }
      }
    }
  }
}
