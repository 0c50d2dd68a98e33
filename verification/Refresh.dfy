/**
 A whole refresh from one provider, doRefreshTorrents in pkg/manager/torrent.go,
 up to the torrents it hands on as new.
 */
module Refresh {
  import opened Wrappers
  import opened Placements
  import opened Reconcile

  ghost predicate SameAt(h: string, before: Store, after: Store) {
    (h in after <==> h in before) && (h in before ==> after[h] == before[h])
  }

  /** What the deletions and updates make of the entry stored under `h`. */
  ghost predicate SettledAt(h: string, before: Store, after: Store, provider: string, remote: RemoteByHash) {
    if Stale(h, before, provider, remote) then
      if Emptied(h, before, provider) then h !in after
      else h in after && after[h].Some? && RemovalOf(before[h].value, after[h].value, provider)
    else SameAt(h, before, after)
  }

  ghost predicate Settled(before: Store, after: Store, provider: string, remote: RemoteByHash) {
    forall h :: SettledAt(h, before, after, provider, remote)
  }

  /** No hash is in two of the three lists, so the order of applying them cannot matter. */
  lemma ListsAreDisjoint(news: seq<Remote>, updates: seq<Stored>, deletes: seq<string>,
                         store: Store, provider: string, remote: RemoteByHash)
    requires NewExact(news, store, provider, remote)
    requires UpdateExact(updates, store, provider, remote)
    requires DeleteExact(deletes, store, provider, remote)
    ensures forall i, j :: 0 <= i < |news| && 0 <= j < |updates| ==> news[i].infoHash != updates[j].infoHash
    ensures forall i :: 0 <= i < |news| ==> news[i].infoHash !in deletes
    ensures forall j :: 0 <= j < |updates| ==> updates[j].infoHash !in deletes
  {
    hide DistinctHashes, Emptied, Wanted;
    assert forall j :: 0 <= j < |updates| ==> Stale(updates[j].infoHash, store, provider, remote);
    assert forall h :: h in deletes ==> Stale(h, store, provider, remote);
  }

  /**
   After a settled refresh nothing keeps a placement under this provider's key that
   the listing lacks, exactly when each such placement named this provider before.
   */
  lemma StaleIsGoneIff(before: Store, after: Store, provider: string, remote: RemoteByHash)
    requires Settled(before, after, provider, remote)
    ensures (forall h :: !Stale(h, after, provider, remote)) <==>
      forall h :: Stale(h, before, provider, remote) ==> before[h].value.providers[provider].provider == provider
  {
    forall h ensures Stale(h, after, provider, remote) <==>
      Stale(h, before, provider, remote) && before[h].value.providers[provider].provider != provider
    {
      StaleStaysIff(h, before, after, provider, remote);
    }
  }

  lemma StaleStaysIff(h: string, before: Store, after: Store, provider: string, remote: RemoteByHash)
    requires Settled(before, after, provider, remote)
    ensures Stale(h, after, provider, remote) <==>
      Stale(h, before, provider, remote) && before[h].value.providers[provider].provider != provider
  {
    assert SettledAt(h, before, after, provider, remote);
    if Stale(h, before, provider, remote) {
      RemovalTakesTheKeyIff(before[h].value.providers, provider);
    }
  }

  lemma ListedIsStale(updates: seq<Stored>, deletes: seq<string>, store: Store, provider: string, remote: RemoteByHash)
    requires UpdateExact(updates, store, provider, remote) && DeleteExact(deletes, store, provider, remote)
    ensures updates != [] || deletes != [] ==> exists h :: Stale(h, store, provider, remote)
  {
    if updates != [] {
      assert Stale(updates[0].infoHash, store, provider, remote);
    } else if deletes != [] {
      assert deletes[0] in deletes;
    }
  }

  /** Then a second refresh from the same listing has nothing to update or delete. */
  lemma SecondRefreshIsIdle(before: Store, after: Store, provider: string, remote: RemoteByHash,
                            updates: seq<Stored>, deletes: seq<string>)
    requires Settled(before, after, provider, remote)
    requires forall h :: h in before && before[h].Some? ==> KeyedByName(before[h].value.providers)
    requires UpdateExact(updates, after, provider, remote) && DeleteExact(deletes, after, provider, remote)
    ensures updates == [] && deletes == []
  {
    StaleIsGoneIff(before, after, provider, remote);
    ListedIsStale(updates, deletes, after, provider, remote);
  }

  /** A placement under the wrong key is found stale, removed from nothing, and stays. */
  lemma MisfiledPlacementStays()
    ensures
      var s := Stored("h", map["p" := Placement("q", "1", DOWNLOADED, 1)], "");
      var store: Store := map["h" := Some(s)];
      && Keyed(store) && Stale("h", store, "p", map[]) && RemovalOf(s, s, "p")
      && Settled(store, store, "p", map[])
  {
    var s := Stored("h", map["p" := Placement("q", "1", DOWNLOADED, 1)], "");
    var store: Store := map["h" := Some(s)];
    assert Without(s.providers, "p") == s.providers;
    assert "p" in s.providers;
    forall h ensures SettledAt(h, store, store, "p", map[]) {}
  }

  // ---- applying the lists

  function WithoutHashes(store: Store, hashes: seq<string>, failing: set<string>): Store {
    map h | h in store && (h !in hashes || h in failing) :: store[h]
  }

  function WithRecords(store: Store, records: seq<Stored>): Store {
    if records == [] then store
    else WithRecords(store, records[..|records| - 1])[records[|records| - 1].infoHash := Some(records[|records| - 1])]
  }

  lemma {:induction false} RecordsMeaning(store: Store, records: seq<Stored>)
    requires DistinctHashes(records)
    ensures forall i :: 0 <= i < |records| ==>
      records[i].infoHash in WithRecords(store, records) &&
      WithRecords(store, records)[records[i].infoHash] == Some(records[i])
    ensures forall h :: (forall i :: 0 <= i < |records| ==> records[i].infoHash != h) ==>
      SameAt(h, store, WithRecords(store, records))
  {
    if records != [] {
      var init := records[..|records| - 1];
      RecordsMeaning(store, init);
      forall h | forall i :: 0 <= i < |records| ==> records[i].infoHash != h
        ensures SameAt(h, store, WithRecords(store, records))
      {
        assert forall i :: 0 <= i < |init| ==> init[i] == records[i];
        assert SameAt(h, store, WithRecords(store, init));
      }
    }
  }

  /** Whatever the deletions and puts that fail, no entry ends in a third state. */
  lemma AppliedAt(h: string, before: Store, updates: seq<Stored>, put: nat, deletes: seq<string>, failing: set<string>,
                  provider: string, remote: RemoteByHash)
    requires Keyed(before) && put <= |updates|
    requires UpdateExact(updates, before, provider, remote) && DeleteExact(deletes, before, provider, remote)
    ensures
      var after := WithRecords(WithoutHashes(before, deletes, failing), updates[..put]);
      && (SettledAt(h, before, after, provider, remote) || SameAt(h, before, after))
      && (put == |updates| && failing == {} ==> SettledAt(h, before, after, provider, remote))
  {
    hide WithRecords, RemovalOf, Keyed;
    var kept := WithoutHashes(before, deletes, failing);
    var after := WithRecords(kept, updates[..put]);
    RecordsMeaning(kept, updates[..put]);
    if Stale(h, before, provider, remote) {
      if Emptied(h, before, provider) {
        assert h in deletes;
        assert forall i :: 0 <= i < |updates| ==> updates[i].infoHash != h;
        assert SameAt(h, kept, after);
      } else {
        var i :| 0 <= i < |updates| && updates[i].infoHash == h;
        if i < put {
          assert updates[..put][i] == updates[i];
          assert after[h] == Some(updates[i]);
        } else {
          assert forall j :: 0 <= j < put ==> updates[..put][j].infoHash != h;
          assert SameAt(h, kept, after);
        }
      }
    } else {
      assert forall i :: 0 <= i < |updates| ==> updates[i].infoHash != h;
      assert SameAt(h, kept, after);
    }
  }

  class Manager {
    var store: Store

    constructor (store: Store)
      ensures this.store == store
    {
      this.store := store;
    }

    /**
     One refresh. A failed or empty listing and a failed scan change nothing; a failed
     delete skips one entry and the first failed put ends the puts.
     */
    method DoRefreshTorrents(provider: string, listing: Option<seq<Remote>>, unreadable: set<string>,
                             deleteFails: set<string>, putFails: set<string>, now: int)
      returns (ok: bool, newTorrents: seq<Remote>)
      requires Keyed(store)
      modifies this
      ensures ok <==> listing == Some([]) || (listing.Some? && unreadable !! old(store).Keys)
      ensures !ok || listing == Some([]) ==> store == old(store) && newTorrents == []
      ensures ok && listing != Some([]) ==>
        var remote := LatestByHash(listing.value);
        && NewExact(newTorrents, old(store), provider, remote)
        && (forall h :: SettledAt(h, old(store), store, provider, remote) || SameAt(h, old(store), store))
        && (deleteFails == {} && putFails == {} ==> Settled(old(store), store, provider, remote))
    {
      if listing.None? { return false, []; }
      if |listing.value| == 0 { return true, []; }
      var remote := ByHash(listing.value);
      LatestMeaning(listing.value);
      var updates, deletes;
      ghost var before := store;
      ok, newTorrents, updates, deletes := DetectTorrentChanges(provider, remote, store, unreadable, now);
      if !ok { return false, []; }
      ghost var records := Records(updates);
      ghost var put := Apply(updates, deletes, deleteFails, putFails);
      forall h ensures
        && (SettledAt(h, before, store, provider, remote) || SameAt(h, before, store))
        && (put == |updates| && deleteFails == {} ==> SettledAt(h, before, store, provider, remote))
      {
        AppliedAt(h, before, records, put, deletes, deleteFails, provider, remote);
      }
    }

    method Apply(updates: seq<Entry>, deletes: seq<string>, deleteFails: set<string>, putFails: set<string>)
      returns (ghost put: nat)
      modifies this
      ensures put <= |updates| && (putFails == {} ==> put == |updates|)
      ensures store == WithRecords(WithoutHashes(old(store), deletes, deleteFails), Records(updates)[..put])
    {
      for i := 0 to |deletes|
        invariant store == WithoutHashes(old(store), deletes[..i], deleteFails)
      {
        if deletes[i] !in deleteFails {
          store := store - {deletes[i]};
        }
      }
      assert deletes[..|deletes|] == deletes;
      ghost var kept := store;
      ghost var records := Records(updates);
      put := 0;
      for i := 0 to |updates|
        invariant put == i
        invariant store == WithRecords(kept, records[..i])
      {
        if updates[i].infoHash in putFails { return; }
        assert records[..i + 1][..i] == records[..i] && records[i] == Record(updates[i]);
        store := store[updates[i].infoHash := Some(Record(updates[i]))];
        put := i + 1;
      }
    }
  }

  /** The loop that keeps the newest listed torrent of each hash. */
  method ByHash(listing: seq<Remote>) returns (m: RemoteByHash)
    ensures m == LatestByHash(listing)
  {
    m := map[];
    for i := 0 to |listing|
      invariant m == LatestByHash(listing[..i])
    {
      var t := listing[i];
      assert listing[..i + 1][..i] == listing[..i];
      if t.infoHash !in m {
        m := m[t.infoHash := t];
      } else if t.added > m[t.infoHash].added {
        m := m[t.infoHash := t];
      }
    }
    assert listing[..|listing|] == listing;
  }
}
