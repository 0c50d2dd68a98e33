/**
 Merging two records of one entry, pkg/storage/misc.go. Files (by AddedOn) and
 placements (by AddedAt) are merged by the same rule, written once here.
 */
module Merge {
  import opened Wrappers

  /** A file or a placement: its timestamp and everything else. */
  datatype Stamped<V> = Stamped(stamp: int, value: V)

  type Table<V> = map<string, Stamped<V>>

  /** The later value wins; on a tie, the existing one. */
  function Later<V>(existing: Stamped<V>, incoming: Stamped<V>): Stamped<V> {
    if incoming.stamp > existing.stamp then incoming else existing
  }

  function Merged<V>(existing: Table<V>, incoming: Table<V>): Table<V> {
    map k | k in existing.Keys + incoming.Keys ::
      if k !in incoming then existing[k]
      else if k !in existing then incoming[k]
      else Later(existing[k], incoming[k])
  }

  /** A nil map gives way to the other one. */
  function MergedOrNil<V>(existing: Option<Table<V>>, incoming: Option<Table<V>>): Option<Table<V>> {
    if existing.None? then incoming
    else if incoming.None? then existing
    else Some(Merged(existing.value, incoming.value))
  }

  method MergeTables<V>(existing: Option<Table<V>>, incoming: Option<Table<V>>) returns (result: Option<Table<V>>)
    ensures result == MergedOrNil(existing, incoming)
  {
    if existing.None? { return incoming; }
    if incoming.None? { return existing; }
    var e, i := existing.value, incoming.value;
    var merged: Table<V> := map[];
    var keys := e.Keys;
    while keys != {}
      invariant keys <= e.Keys
      invariant merged == map k | k in e && k !in keys :: e[k]
    {
      var k :| k in keys;
      merged := merged[k := e[k]];
      keys := keys - {k};
    }
    keys := i.Keys;
    while keys != {}
      invariant keys <= i.Keys
      invariant merged == Merged(e, i - keys)
    {
      var k :| k in keys;
      if k in merged {
        if i[k].stamp > merged[k].stamp {
          merged := merged[k := i[k]];
        }
      } else {
        merged := merged[k := i[k]];
      }
      keys := keys - {k};
    }
    assert i - keys == i;
    return Some(merged);
  }

  lemma MergeIdempotent<V>(a: Table<V>)
    ensures Merged(a, a) == a
  {}

  /** Merging the same record a second time changes nothing, from either side. */
  lemma MergeAbsorbs<V>(a: Table<V>, b: Table<V>)
    ensures Merged(a, Merged(a, b)) == Merged(a, b)
    ensures Merged(Merged(a, b), b) == Merged(a, b)
    ensures Merged(a, b).Keys == a.Keys + b.Keys
  {}

  lemma MergeAssociative<V>(a: Table<V>, b: Table<V>, c: Table<V>)
    ensures Merged(Merged(a, b), c) == Merged(a, Merged(b, c))
  {}

  /** Equal timestamps under one key belong to equal values. */
  ghost predicate Agree<V>(a: Table<V>, b: Table<V>) {
    forall k :: k in a && k in b && a[k].stamp == b[k].stamp ==> a[k] == b[k]
  }

  /** Key by key: the later value, the existing one on a tie, and what only one side has. */
  lemma MergedAt<V>(a: Table<V>, b: Table<V>, k: string)
    ensures k in Merged(a, b) <==> k in a || k in b
    ensures k in a && k in b && b[k].stamp > a[k].stamp ==> Merged(a, b)[k] == b[k]
    ensures k in a && k in b && b[k].stamp <= a[k].stamp ==> Merged(a, b)[k] == a[k]
    ensures k in a && k !in b ==> Merged(a, b)[k] == a[k]
    ensures k !in a && k in b ==> Merged(a, b)[k] == b[k]
  {}

  /** The order of two merges matters exactly when one key carries a tie between different values. */
  lemma MergeCommutesIff<V>(a: Table<V>, b: Table<V>)
    ensures Merged(a, b) == Merged(b, a) <==> Agree(a, b)
  {
    if Merged(a, b) == Merged(b, a) {
      forall k | k in a && k in b && a[k].stamp == b[k].stamp ensures a[k] == b[k] {
        assert Merged(a, b)[k] == a[k] && Merged(b, a)[k] == b[k];
      }
    } else {
      assert Merged(a, b).Keys == Merged(b, a).Keys;
      var k :| k in Merged(a, b) && Merged(a, b)[k] != Merged(b, a)[k];
    }
  }

  /** Merging each table of a list, in order, into what came before. */
  function MergeAll<V>(tables: seq<Table<V>>): Table<V> {
    if tables == [] then map[] else Merged(MergeAll(tables[..|tables| - 1]), tables[|tables| - 1])
  }

  /** `v` is stored under `k` by some table, and no table stores a later value there. */
  ghost predicate Newest<V>(tables: seq<Table<V>>, k: string, v: Stamped<V>) {
    && (exists t: Table<V> :: t in tables && k in t && t[k] == v)
    && (forall t: Table<V> :: t in tables && k in t ==> t[k].stamp <= v.stamp)
  }

  lemma NewestNext<V>(tables: seq<Table<V>>, t: Table<V>, k: string, v: Stamped<V>)
    requires Newest(tables, k, v)
    ensures Newest(tables + [t], k, if k in t then Later(v, t[k]) else v)
  {
    assert forall u :: u in tables + [t] <==> u in tables || u == t;
  }

  lemma NewestFirst<V>(tables: seq<Table<V>>, t: Table<V>, k: string)
    requires k in t && forall u :: u in tables ==> k !in u
    ensures Newest(tables + [t], k, t[k])
  {
    assert t in tables + [t];
  }

  /** No key is lost, none is invented, and each holds a newest value. */
  lemma {:induction false} MergeAllMeaning<V>(tables: seq<Table<V>>)
    ensures forall k :: k in MergeAll(tables) <==> exists t: Table<V> :: t in tables && k in t
    ensures forall k :: k in MergeAll(tables) ==> Newest(tables, k, MergeAll(tables)[k])
  {
    if tables != [] {
      var init, last := tables[..|tables| - 1], tables[|tables| - 1];
      MergeAllMeaning(init);
      assert tables == init + [last];
      assert forall t :: t in tables <==> t in init || t == last;
      hide Newest;
      forall k | k in MergeAll(tables) ensures Newest(tables, k, MergeAll(tables)[k]) {
        if k in MergeAll(init) {
          NewestNext(init, last, k, MergeAll(init)[k]);
        } else {
          NewestFirst(init, last, k);
        }
      }
    }
  }

  lemma NewestIsUnique<V>(tables: seq<Table<V>>, k: string, v: Stamped<V>, w: Stamped<V>)
    requires forall a, b :: a in tables && b in tables ==> Agree(a, b)
    requires Newest(tables, k, v) && Newest(tables, k, w)
    ensures v == w
  {
    var a: Table<V> :| a in tables && k in a && a[k] == v;
    var b: Table<V> :| b in tables && k in b && b[k] == w;
    assert Agree(a, b);
  }

  lemma SameMembers<V>(tables: seq<Table<V>>, others: seq<Table<V>>)
    requires multiset(tables) == multiset(others)
    ensures forall t :: t in tables <==> t in others
  {
    forall t ensures t in tables <==> t in others {
      assert t in multiset(tables) <==> t in multiset(others);
    }
  }

  /** With distinct timestamps per key, any number of merges in any order gives the same table. */
  lemma MergeAnyOrder<V>(tables: seq<Table<V>>, others: seq<Table<V>>)
    requires multiset(tables) == multiset(others)
    requires forall a, b :: a in tables && b in tables ==> Agree(a, b)
    ensures MergeAll(tables) == MergeAll(others)
  {
    hide MergeAll, Agree;
    SameMembers(tables, others);
    MergeAllMeaning(tables);
    MergeAllMeaning(others);
    var x, y := MergeAll(tables), MergeAll(others);
    assert forall k :: k in x <==> k in y;
    forall k | k in x ensures x[k] == y[k] {
      assert Newest(tables, k, y[k]) by { assert Newest(others, k, y[k]); }
      NewestIsUnique(tables, k, x[k], y[k]);
    }
  }

  method MergeTags(existing: seq<string>, incoming: seq<string>) returns (tags: seq<string>)
    ensures forall t :: t in tags <==> t in existing || t in incoming
    ensures existing == [] ==> tags == incoming
    ensures existing != [] && incoming == [] ==> tags == existing
    ensures existing != [] && incoming != [] ==> forall i, j :: 0 <= i < j < |tags| ==> tags[i] != tags[j]
  {
    if |existing| == 0 { return incoming; }
    if |incoming| == 0 { return existing; }
    var tagSet: set<string> := {};
    for i := 0 to |existing|
      invariant forall t :: t in tagSet <==> t in existing[..i]
    {
      tagSet := tagSet + {existing[i]};
    }
    for i := 0 to |incoming|
      invariant forall t :: t in tagSet <==> t in existing || t in incoming[..i]
    {
      tagSet := tagSet + {incoming[i]};
    }
    tags := [];
    ghost var all := tagSet;
    while tagSet != {}
      invariant forall t :: t in all <==> t in tagSet || t in tags
      invariant forall t :: t in tags ==> t !in tagSet
      invariant forall i, j :: 0 <= i < j < |tags| ==> tags[i] != tags[j]
    {
      var t :| t in tagSet;
      tagSet := tagSet - {t};
      tags := tags + [t];
    }
  }

  datatype Protocol = Torrent | Nzb

  class Entry<V, W> {
    const protocol: Protocol
    var files: Option<Table<V>>
    var providers: Option<Table<W>>
    var activeProvider: string
    var tags: seq<string>

    constructor (protocol: Protocol, files: Option<Table<V>>, providers: Option<Table<W>>,
                 activeProvider: string, tags: seq<string>)
      ensures this.protocol == protocol && this.files == files && this.providers == providers
      ensures this.activeProvider == activeProvider && this.tags == tags
    {
      this.protocol, this.files, this.providers := protocol, files, providers;
      this.activeProvider, this.tags := activeProvider, tags;
    }

    /** The active provider is unset or has a placement. */
    ghost predicate ActiveIsPlaced()
      reads this
    {
      activeProvider == "" || (providers.Some? && activeProvider in providers.value)
    }

    /** Merges `existing` into this incoming entry; an NZB entry is left as it is. */
    method HandleExistingEntryMerge(existing: Entry<V, W>)
      modifies this
      ensures protocol.Nzb? ==>
        && files == old(files) && providers == old(providers)
        && activeProvider == old(activeProvider) && tags == old(tags)
      ensures protocol.Torrent? ==>
        && files == MergedOrNil(old(existing.files), old(files))
        && providers == MergedOrNil(old(existing.providers), old(providers))
        && activeProvider == (if old(activeProvider) != "" then old(activeProvider) else old(existing.activeProvider))
        && forall t :: t in tags <==> t in old(existing.tags) || t in old(tags)
      ensures old(ActiveIsPlaced()) && old(existing.ActiveIsPlaced()) ==> ActiveIsPlaced()
    {
      if protocol.Nzb? { return; }
      files := MergeTables(existing.files, files);
      if activeProvider == "" { activeProvider := existing.activeProvider; }
      providers := MergeTables(existing.providers, providers);
      tags := MergeTags(existing.tags, tags);
    }
  }
}
