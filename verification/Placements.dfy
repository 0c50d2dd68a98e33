/**
 The placements of a stored entry and the operations that change them in place,
 pkg/storage/types.go. A map is iterated in any order.
 */
module Placements {
  import opened Wrappers

  /** A placement on one provider; `files` is the number of files it lists. */
  datatype Placement = Placement(provider: string, id: string, status: string, files: nat)

  type Placements = map<string, Placement>

  const DOWNLOADED: string := "downloaded"

  datatype ActivateError = NotFound | NotCompleted

  /** Every placement sits under its own provider's name. */
  ghost predicate KeyedByName(ps: Placements) {
    forall k :: k in ps ==> ps[k].provider == k
  }

  function Without(ps: Placements, name: string): Placements {
    map k | k in ps && ps[k].provider != name :: ps[k]
  }

  /** Some completed placement carries this provider name. */
  ghost predicate Completed(ps: Placements, name: string) {
    exists k :: k in ps && ps[k].provider == name && ps[k].status == DOWNLOADED
  }

  ghost predicate AnyCompleted(ps: Placements) {
    exists k :: k in ps && ps[k].status == DOWNLOADED
  }

  /** A completed placement shares its provider name with one that is not completed. */
  ghost predicate Mixed(ps: Placements) {
    exists k, j :: k in ps && j in ps && ps[k].provider == ps[j].provider &&
      ps[k].status == DOWNLOADED && ps[j].status != DOWNLOADED
  }

  /**
   What a switch may leave as the active provider: the name of a completed placement, or
   the name from before when there is none, or when the one looked up by name is another.
   */
  ghost predicate Switched(ps: Placements, before: string, after: string) {
    Completed(ps, after) || (after == before && (!AnyCompleted(ps) || Mixed(ps)))
  }

  /** The placement of the active provider, if there is one. */
  function ActivePlacement(ps: Placements, active: string): Option<Placement> {
    if active != "" && active in ps then Some(ps[active]) else None
  }

  /** Removal takes away the key exactly when the placement under it names that provider. */
  lemma RemovalTakesTheKeyIff(ps: Placements, name: string)
    ensures name in Without(ps, name) <==> name in ps && ps[name].provider != name
    ensures Without(ps, name) == ps - {name} <==> forall k :: k in ps ==> (ps[k].provider == name <==> k == name)
  {
    if Without(ps, name) == ps - {name} {
      forall k | k in ps ensures ps[k].provider == name <==> k == name {
        assert k in Without(ps, name) <==> k in ps - {name};
      }
    }
  }

  /** A placement stored under another provider's key survives the removal of that key. */
  lemma MisfiledPlacementSurvives()
    ensures
      var ps := map["a" := Placement("b", "1", DOWNLOADED, 1)];
      Without(ps, "a") == ps && Without(ps, "b") == map[]
  {}

  /** The keys of the placements of that name, each once, with the placements under them. */
  ghost predicate Picked(ps: Placements, name: string, keys: seq<string>, cleaned: seq<Placement>) {
    && (forall i, j :: 0 <= i < j < |keys| ==> keys[i] != keys[j])
    && (forall k :: k in keys <==> k in ps && ps[k].provider == name)
    && |cleaned| == |keys| && forall i :: 0 <= i < |keys| ==> cleaned[i] == ps[keys[i]]
  }

  lemma PickedLeaves(ps: Placements, name: string, keys: seq<string>, cleaned: seq<Placement>)
    requires Picked(ps, name, keys, cleaned)
    ensures (map k | k in ps && k !in keys :: ps[k]) == Without(ps, name)
  {}

  /** The first loop of RemoveProvider. */
  method Pick(ps: Placements, name: string) returns (keys: seq<string>, cleaned: seq<Placement>)
    ensures Picked(ps, name, keys, cleaned)
  {
    keys, cleaned := [], [];
    var left := ps.Keys;
    while left != {}
      invariant left <= ps.Keys
      invariant forall k :: k in keys <==> k in ps && k !in left && ps[k].provider == name
      invariant forall i, j :: 0 <= i < j < |keys| ==> keys[i] != keys[j]
      invariant |cleaned| == |keys| && forall i :: 0 <= i < |keys| ==> cleaned[i] == ps[keys[i]]
      decreases |left|
    {
      var k :| k in left;
      left := left - {k};
      if ps[k].provider == name {
        keys, cleaned := keys + [k], cleaned + [ps[k]];
      }
    }
  }

  /** The second loop of RemoveProvider. */
  method WithoutKeys(ps: Placements, keys: seq<string>) returns (left: Placements)
    ensures left == map k | k in ps && k !in keys :: ps[k]
  {
    left := ps;
    for i := 0 to |keys|
      invariant left == map k | k in ps && k !in keys[..i] :: ps[k]
    {
      left := left - {keys[i]};
    }
    assert keys[..|keys|] == keys;
  }

  class Entry {
    const infoHash: string
    var providers: Placements
    var activeProvider: string
    var updatedAt: int

    constructor (infoHash: string, providers: Placements, activeProvider: string)
      ensures this.infoHash == infoHash && this.providers == providers && this.activeProvider == activeProvider
    {
      this.infoHash, this.providers, this.activeProvider := infoHash, providers, activeProvider;
    }

    method ActivatePlacement(name: string, now: int) returns (err: Option<ActivateError>)
      modifies this`activeProvider, this`updatedAt
      ensures err == Some(NotFound) <==> forall k :: k in providers ==> providers[k].provider != name
      ensures err == Some(NotCompleted) ==>
        exists k :: k in providers && providers[k].provider == name && providers[k].status != DOWNLOADED
      ensures err.None? ==> Completed(providers, name) && activeProvider == name && updatedAt == now
      ensures err.Some? ==> activeProvider == old(activeProvider) && updatedAt == old(updatedAt)
    {
      var found: Option<Placement> := None;
      ghost var at := "";
      var keys := providers.Keys;
      while keys != {} && found.None?
        invariant keys <= providers.Keys
        invariant found.None? ==> forall k :: k in providers && k !in keys ==> providers[k].provider != name
        invariant found.Some? ==> at in providers && providers[at] == found.value
        invariant found.Some? ==> found.value.provider == name
        decreases |keys|
      {
        var k :| k in keys;
        keys := keys - {k};
        if providers[k].provider == name { found, at := Some(providers[k]), k; }
      }
      if found.None? { return Some(NotFound); }
      if found.value.status != DOWNLOADED { return Some(NotCompleted); }
      activeProvider := name;
      updatedAt := now;
      assert at in providers && providers[at].provider == name;
      return None;
    }

    /** The first completed placement found is activated, by its provider's name. */
    method SwitchToNextProvider(now: int)
      modifies this`activeProvider, this`updatedAt
      ensures Switched(providers, old(activeProvider), activeProvider)
      ensures activeProvider != old(activeProvider) ==> updatedAt == now
    {
      var keys := providers.Keys;
      while keys != {}
        invariant keys <= providers.Keys
        invariant forall k :: k in providers && k !in keys ==> providers[k].status != DOWNLOADED
        invariant activeProvider == old(activeProvider) && updatedAt == old(updatedAt)
        decreases |keys|
      {
        var k :| k in keys;
        keys := keys - {k};
        if providers[k].status == DOWNLOADED {
          var name := providers[k].provider;
          assert Completed(providers, name);
          var err := ActivatePlacement(name, now);
          assert err != Some(NotFound) by { assert providers[k].provider == name; }
          if err.Some? {
            assert err.value.NotFound? || err.value.NotCompleted?;
            var j :| j in providers && providers[j].provider == name && providers[j].status != DOWNLOADED;
            assert Mixed(providers) by { assert k in providers && j in providers; }
          }
          return;
        }
      }
    }

    /** The removed placements are handed to the cleanup callback, if there is one, one by one. */
    method RemoveProvider(name: string, now: int) returns (keys: seq<string>, cleaned: seq<Placement>)
      modifies this`providers, this`activeProvider, this`updatedAt
      ensures providers == Without(old(providers), name)
      ensures old(activeProvider) != name ==> activeProvider == old(activeProvider) && updatedAt == old(updatedAt)
      ensures old(activeProvider) == name ==> Switched(providers, name, activeProvider)
      ensures Picked(old(providers), name, keys, cleaned)
    {
      hide Switched, Picked;
      keys, cleaned := Pick(providers, name);
      var left := WithoutKeys(providers, keys);
      PickedLeaves(providers, name, keys, cleaned);
      providers := left;
      if activeProvider == name { SwitchToNextProvider(now); }
    }

    method GetActiveProvider() returns (p: Option<Placement>)
      ensures p == ActivePlacement(providers, activeProvider)
    {
      if activeProvider == "" || activeProvider !in providers {
        return None;
      }
      return Some(providers[activeProvider]);
    }
  }
}
