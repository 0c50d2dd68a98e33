/**
 The cached statistics of the NZB metadata directory, pkg/usenet/storage.go. The
 directory is part of the model: names are relative to it and a name with a
 separator lies outside its listing. Sizes are unbounded integers.
 */
module NzbStorage {
  import opened Wrappers

  datatype Node = File(size: nat) | Dir(size: nat)

  /** The file extension as filepath.Ext computes it: from the last dot of the last path element. */
  function Ext(name: string): string { ExtBefore(name, |name|) }

  function ExtBefore(name: string, end: nat): string
    requires end <= |name|
  {
    if end == 0 || name[end - 1] == '/' then ""
    else if name[end - 1] == '.' then name[end - 1..]
    else ExtBefore(name, end - 1)
  }

  const META: string := ".meta"

  function MetaName(id: string): string { id + META }
  function TempName(id: string): string { MetaName(id) + ".tmp" }

  /** What the scan of the directory counts: files, not directories, with the extension. */
  predicate Counted(name: string, node: Node) {
    node.File? && '/' !in name && Ext(name) == META
  }

  lemma {:induction false} ExtIsASuffix(name: string, end: nat)
    requires end <= |name|
    ensures ExtBefore(name, end) == "" || exists k :: 0 <= k < end && ExtBefore(name, end) == name[k..]
  {
    if end > 0 && name[end - 1] != '/' && name[end - 1] != '.' {
      ExtIsASuffix(name, end - 1);
    }
  }

  /** The extension test is a suffix test, so no temporary file is ever counted. */
  lemma ExtIsMeta(name: string)
    ensures Ext(name) == META <==> |name| >= |META| && name[|name| - |META|..] == META
  {
    ExtIsASuffix(name, |name|);
    if |name| >= |META| && name[|name| - |META|..] == META {
      var n := |name|;
      assert forall k :: n - 5 <= k < n ==> name[k] == META[k - (n - 5)];
      assert ExtBefore(name, n) == ExtBefore(name, n - 1) == ExtBefore(name, n - 2);
      assert ExtBefore(name, n - 2) == ExtBefore(name, n - 3) == ExtBefore(name, n - 4) == name[n - 5..];
    }
  }

  lemma Names(id: string)
    ensures Ext(MetaName(id)) == META
    ensures Ext(TempName(id)) != META
    ensures '/' in MetaName(id) <==> '/' in id
  {
    ExtIsMeta(MetaName(id));
    ExtIsMeta(TempName(id));
    var t := TempName(id);
    assert t[|t| - 1] == 'p';
    if '/' in MetaName(id) {
      var i :| 0 <= i < |MetaName(id)| && MetaName(id)[i] == '/';
      assert i < |id|;
    }
    if '/' in id {
      var i :| 0 <= i < |id| && id[i] == '/';
      assert MetaName(id)[i] == '/';
    }
  }

  type Files = map<string, Node>

  /** The sizes of the files the scan counts. */
  ghost function Sizes(fs: Files): map<string, nat> {
    map n | n in fs && Counted(n, fs[n]) :: fs[n].size
  }

  lemma InSizes(fs: Files)
    ensures Sizes(fs).Keys <= fs.Keys
    ensures forall n :: n in Sizes(fs) <==> n in fs && Counted(n, fs[n])
    ensures forall n :: n in Sizes(fs) ==> Sizes(fs)[n] == fs[n].size
  {}

  ghost function Total(m: map<string, nat>): nat
    decreases |m|
  {
    if m == map[] then 0 else
      var k :| k in m;
      assert |m - {k}| < |m| by { assert (m - {k}).Keys == m.Keys - {k}; }
      m[k] + Total(m - {k})
  }

  lemma {:induction false} TotalWithout(m: map<string, nat>, k: string)
    requires k in m
    ensures Total(m) == m[k] + Total(m - {k})
    ensures |m - {k}| == |m| - 1
    decreases |m|
  {
    assert (m - {k}).Keys == m.Keys - {k};
    var j :| j in m && Total(m) == m[j] + Total(m - {j});
    if j != k {
      assert (m - {j}).Keys == m.Keys - {j};
      TotalWithout(m - {j}, k);
      TotalWithout(m - {k}, j);
      assert m - {j} - {k} == m - {k} - {j};
    }
  }

  lemma TotalWith(m: map<string, nat>, k: string, v: nat)
    ensures k !in m ==> Total(m[k := v]) == Total(m) + v && |m[k := v]| == |m| + 1
    ensures k in m ==> Total(m[k := v]) == Total(m) + v - m[k] && |m[k := v]| == |m|
  {
    TotalWithout(m[k := v], k);
    if k in m {
      TotalWithout(m, k);
      assert m[k := v] - {k} == m - {k};
    } else {
      assert m[k := v] - {k} == m;
    }
  }

  /** The names outside `left` have been counted. */
  ghost predicate Scanned(sizes: map<string, nat>, left: set<string>, count: int, total: int) {
    count == |sizes - left| && total == Total(sizes - left)
  }

  lemma ScanStarts(sizes: map<string, nat>, left: set<string>)
    requires sizes.Keys <= left
    ensures Scanned(sizes, left, 0, 0)
  {
    assert sizes - left == map[];
  }

  lemma ScanSkips(sizes: map<string, nat>, left: set<string>, name: string, count: int, total: int)
    requires name in left && name !in sizes && Scanned(sizes, left, count, total)
    ensures Scanned(sizes, left - {name}, count, total)
  {
    assert sizes - (left - {name}) == sizes - left;
  }

  lemma ScanCounts(sizes: map<string, nat>, left: set<string>, name: string, count: int, total: int, total': int)
    requires name in left && name in sizes && Scanned(sizes, left, count, total)
    requires total' == total + sizes[name]
    ensures Scanned(sizes, left - {name}, count + 1, total')
  {
    TotalWith(sizes - left, name, sizes[name]);
    assert sizes - (left - {name}) == (sizes - left)[name := sizes[name]];
  }

  lemma ScanEnds(sizes: map<string, nat>, count: int, total: int)
    requires Scanned(sizes, {}, count, total)
    ensures count == |sizes| && total == Total(sizes)
  {
    assert sizes - {} == sizes;
  }

  /** Everything outside `left` has been visited, and could be read where it counts. */
  ghost predicate Scanning(fs: Files, left: set<string>, unreadable: set<string>, count: int, total: int) {
    && left <= fs.Keys
    && Scanned(Sizes(fs), left, count, total)
    && forall n :: n in Sizes(fs) && n in unreadable ==> n in left
  }

  lemma ScanBegins(fs: Files, unreadable: set<string>)
    ensures Scanning(fs, fs.Keys, unreadable, 0, 0)
  {
    InSizes(fs);
    ScanStarts(Sizes(fs), fs.Keys);
  }

  lemma ScanSees(fs: Files, left: set<string>, unreadable: set<string>, count: int, total: int, name: string, total': int)
    requires Scanning(fs, left, unreadable, count, total) && name in left && name in fs && name !in unreadable
    requires total' == total + fs[name].size
    ensures Counted(name, fs[name]) ==> Scanning(fs, left - {name}, unreadable, count + 1, total')
  {
    InSizes(fs);
    if name in Sizes(fs) { ScanCounts(Sizes(fs), left, name, count, total, total'); }
  }

  lemma ScanPasses(fs: Files, left: set<string>, unreadable: set<string>, count: int, total: int, name: string)
    requires Scanning(fs, left, unreadable, count, total) && name in left && name in fs && !Counted(name, fs[name])
    ensures Scanning(fs, left - {name}, unreadable, count, total)
  {
    InSizes(fs);
    ScanSkips(Sizes(fs), left, name, count, total);
  }

  lemma ScanFinishes(fs: Files, unreadable: set<string>, count: int, total: int)
    requires Scanning(fs, {}, unreadable, count, total)
    ensures Exact(State(fs, count, total)) && unreadable !! Sizes(fs).Keys
  {
    ScanEnds(Sizes(fs), count, total);
  }

  /** The directory and the two cached fields. */
  datatype State = State(fs: Files, count: int, bytes: int)

  /** The cache is what a scan would compute. */
  ghost predicate Exact(s: State) {
    s.count == |Sizes(s.fs)| && s.bytes == Total(Sizes(s.fs))
  }

  /** How the operating system answers during one call. */
  datatype Env = Env(encodes: bool, stats: bool, writes: bool, partial: Option<nat>, renames: bool, removes: bool)

  /** A file cannot be written or renamed over a directory. */
  predicate Writes(fs: Files, id: string, env: Env) {
    env.writes && !(TempName(id) in fs && fs[TempName(id)].Dir?)
  }

  predicate Renames(fs: Files, id: string, env: Env) {
    env.renames && !(MetaName(id) in fs && fs[MetaName(id)].Dir?)
  }

  predicate AddSucceeds(fs: Files, id: string, env: Env) {
    env.encodes && env.stats && Writes(fs, id, env) && Renames(fs, id, env)
  }

  predicate DeleteSucceeds(env: Env) { env.stats && env.removes }

  /** What a failed write or a failed rename leaves of the temporary file. */
  function FilesAfterAdd(fs: Files, id: string, size: nat, env: Env): Files {
    if !env.encodes || !env.stats then fs
    else if !Writes(fs, id, env) then
      if env.partial.Some? && !(TempName(id) in fs && fs[TempName(id)].Dir?)
      then fs[TempName(id) := File(env.partial.value)] else fs
    else if !Renames(fs, id, env) then
      if env.removes then fs - {TempName(id)} else fs[TempName(id) := File(size)]
    else (fs - {TempName(id)})[MetaName(id) := File(size)]
  }

  function Add(s: State, id: string, size: nat, env: Env): State {
    var fs := FilesAfterAdd(s.fs, id, size, env);
    if !AddSucceeds(s.fs, id, env) then s.(fs := fs)
    else if MetaName(id) in s.fs then State(fs, s.count, s.bytes + size - s.fs[MetaName(id)].size)
    else State(fs, s.count + 1, s.bytes + size)
  }

  function ClampedAtZero(n: int): int { if n < 0 then 0 else n }

  function Delete(s: State, id: string, env: Env): State {
    if !DeleteSucceeds(env) || MetaName(id) !in s.fs then s
    else State(s.fs - {MetaName(id)}, if s.count > 0 then s.count - 1 else s.count,
               ClampedAtZero(s.bytes - s.fs[MetaName(id)].size))
  }

  /** Delete with neither clamp. */
  function DeleteUnclamped(s: State, id: string, env: Env): State {
    if !DeleteSucceeds(env) || MetaName(id) !in s.fs then s
    else State(s.fs - {MetaName(id)}, s.count - 1, s.bytes - s.fs[MetaName(id)].size)
  }

  /** An add leaves every other name as it was, and never puts a file in the place of a directory. */
  lemma AddFrame(fs: Files, id: string, size: nat, env: Env, name: string)
    ensures name !in {MetaName(id), TempName(id)} ==>
      (name in FilesAfterAdd(fs, id, size, env) <==> name in fs) &&
      (name in fs ==> FilesAfterAdd(fs, id, size, env)[name] == fs[name])
    ensures name in fs && fs[name].Dir? ==>
      name in FilesAfterAdd(fs, id, size, env) && FilesAfterAdd(fs, id, size, env)[name] == fs[name]
  {
    Names(id);
  }

  /** What an add leaves under its own two names, at each point where it can stop. */
  lemma AddLeaves(fs: Files, id: string, size: nat, env: Env)
    ensures
      var meta, temp, after := MetaName(id), TempName(id), FilesAfterAdd(fs, id, size, env);
      var written := env.encodes && env.stats && env.writes && !(temp in fs && fs[temp].Dir?);
      var renamed := written && env.renames && !(meta in fs && fs[meta].Dir?);
      && (AddSucceeds(fs, id, env) <==> renamed)
      && (renamed ==> meta in after && after[meta] == File(size) && temp !in after)
      && (!renamed ==> (meta in after <==> meta in fs) && (meta in fs ==> after[meta] == fs[meta]))
      && (written && !renamed ==> if env.removes then temp !in after else temp in after && after[temp] == File(size))
      && (!written && (!env.encodes || !env.stats || env.partial.None?) ==> after == fs)
      && (!written && env.encodes && env.stats && env.partial.Some? && !(temp in fs && fs[temp].Dir?) ==>
            temp in after && after[temp] == File(env.partial.value))
  {
    Names(id);
  }

  /** The id can be read off the name of its file, as the listing of ids does, so no two ids share one. */
  lemma IdOfName(id: string)
    ensures MetaName(id)[..|MetaName(id)| - |META|] == id
  {}

  /** No call makes or breaks a counted file other than the one it is about. */
  lemma SizesAfterAdd(fs: Files, id: string, size: nat, env: Env)
    ensures !AddSucceeds(fs, id, env) ==> Sizes(FilesAfterAdd(fs, id, size, env)) == Sizes(fs)
    ensures AddSucceeds(fs, id, env) ==>
      Sizes(FilesAfterAdd(fs, id, size, env)) == if '/' in id then Sizes(fs) else Sizes(fs)[MetaName(id) := size]
  {
    Names(id);
  }

  /**
   A successful add keeps the cache exact exactly when the id names a place the scan
   sees, or the add replaces a file by one of the same size; a failed add always does.
   */
  lemma AddExactIff(s: State, id: string, size: nat, env: Env)
    requires Exact(s)
    ensures Exact(Add(s, id, size, env)) <==>
      || !AddSucceeds(s.fs, id, env)
      || '/' !in id
      || (MetaName(id) in s.fs && s.fs[MetaName(id)].size == size)
  {
    Names(id);
    SizesAfterAdd(s.fs, id, size, env);
    hide Ext, FilesAfterAdd;
    TotalWith(Sizes(s.fs), MetaName(id), size);
    assert MetaName(id) in Sizes(s.fs) <==> MetaName(id) in s.fs && Counted(MetaName(id), s.fs[MetaName(id)]);
  }

  /**
   A delete breaks the cache exactly when it removes something the scan does not
   count (a directory, or a name outside the listing) while anything is counted.
   */
  lemma DeleteExactIff(s: State, id: string, env: Env)
    requires Exact(s)
    ensures Exact(Delete(s, id, env)) <==>
      || !DeleteSucceeds(env)
      || MetaName(id) !in s.fs
      || Counted(MetaName(id), s.fs[MetaName(id)])
      || s.count == 0
  {
    hide Ext;
    var name := MetaName(id);
    if DeleteSucceeds(env) && name in s.fs {
      if Counted(name, s.fs[name]) {
        TotalWithout(Sizes(s.fs), name);
        assert Sizes(s.fs - {name}) == Sizes(s.fs) - {name};
      } else {
        assert Sizes(s.fs - {name}) == Sizes(s.fs);
      }
    }
  }

  /** Deleting a counted file from an exact cache, neither clamp changes a value. */
  lemma ClampsAreIdle(s: State, id: string, env: Env)
    requires Exact(s)
    requires MetaName(id) in s.fs ==> Counted(MetaName(id), s.fs[MetaName(id)])
    ensures Delete(s, id, env) == DeleteUnclamped(s, id, env)
  {
    if MetaName(id) in s.fs { TotalWithout(Sizes(s.fs), MetaName(id)); }
  }

  datatype Op = AddOp(id: string, size: nat, env: Env) | DeleteOp(id: string, env: Env)

  function Step(s: State, op: Op): State {
    match op
    case AddOp(id, size, env) => Add(s, id, size, env)
    case DeleteOp(id, env) => Delete(s, id, env)
  }

  function Run(s: State, ops: seq<Op>): State
    decreases |ops|
  {
    if ops == [] then s else Run(Step(s, ops[0]), ops[1..])
  }

  /** No directory in the listing carries the extension. */
  ghost predicate NoMetaDirs(fs: Files) {
    forall n :: n in fs && '/' !in n && Ext(n) == META ==> fs[n].File?
  }

  lemma StepKeepsExact(s: State, op: Op)
    requires Exact(s) && NoMetaDirs(s.fs) && '/' !in op.id
    ensures Exact(Step(s, op)) && NoMetaDirs(Step(s, op).fs)
  {
    Names(op.id);
    match op
    case AddOp(id, size, env) => AddExactIff(s, id, size, env);
    case DeleteOp(id, env) => DeleteExactIff(s, id, env);
  }

  /**
   Over every sequence of adds, overwrites, deletes and failed calls the cache stays
   exact, and the clamps of the next delete are idle.
   */
  lemma {:induction false} RunKeepsExact(s: State, ops: seq<Op>, next: string, env: Env)
    requires Exact(s) && NoMetaDirs(s.fs)
    requires '/' !in next && forall i :: 0 <= i < |ops| ==> '/' !in ops[i].id
    ensures Exact(Run(s, ops))
    ensures Delete(Run(s, ops), next, env) == DeleteUnclamped(Run(s, ops), next, env)
    decreases |ops|
  {
    if ops == [] {
      Names(next);
      ClampsAreIdle(s, next, env);
    } else {
      StepKeepsExact(s, ops[0]);
      RunKeepsExact(Step(s, ops[0]), ops[1..], next, env);
    }
  }

  /** One metadata file of seven bytes and an empty directory named like one. */
  const EXAMPLE: Files := map["a.meta" := File(7), "b.meta" := Dir(4096)]

  lemma SizesWith(fs: Files, name: string, node: Node)
    ensures Sizes(fs[name := node]) == if Counted(name, node) then Sizes(fs)[name := node.size] else Sizes(fs) - {name}
  {
    hide Counted;
  }

  lemma ExampleSizes()
    ensures Sizes(EXAMPLE) == map["a.meta" := 7]
  {
    Names("a");
    assert Counted("a.meta", File(7)) by { assert MetaName("a") == "a.meta"; }
    hide Sizes, Ext;
    SizesWith(map[], "a.meta", File(7));
    SizesWith(map["a.meta" := File(7)], "b.meta", Dir(4096));
    NoSizes();
    assert map["a.meta" := 7] - {"b.meta"} == map["a.meta" := 7];
  }

  lemma NoSizes()
    ensures Sizes(map[]) == map[]
  {}

  lemma OneSize(name: string, size: nat)
    ensures Total(map[name := size]) == size && |map[name := size]| == 1
  {
    TotalWithout(map[name := size], name);
    assert map[name := size] - {name} == map[];
  }

  lemma ExampleIsExact()
    ensures Exact(State(EXAMPLE, 1, 7))
  {
    ExampleSizes();
    OneSize("a.meta", 7);
    hide Sizes, Total;
  }

  /** An empty directory named like a metadata file makes the cache lose a real one. */
  lemma DirectoryBreaksTheCount()
    ensures
      var env := Env(true, true, true, None, true, true);
      var s := State(EXAMPLE, 1, 7);
      Exact(s) && Delete(s, "b", env) == State(map["a.meta" := File(7)], 0, 0) && !Exact(Delete(s, "b", env))
  {
    hide Ext, Sizes, Total;
    var env := Env(true, true, true, None, true, true);
    assert MetaName("b") == "b.meta";
    assert EXAMPLE - {"b.meta"} == map["a.meta" := File(7)];
    ExampleIsExact();
    DeleteExactIff(State(EXAMPLE, 1, 7), "b", env);
  }

  /** The loop over the directory's entries. */
  method Scan(fs: Files, unreadable: set<string>) returns (ok: bool, count: int, totalSize: int)
    ensures ok <==> unreadable !! Sizes(fs).Keys
    ensures ok ==> Exact(State(fs, count, totalSize))
  {
    hide Sizes, Counted, Scanning, Exact;
    InSizes(fs);
    var entries := fs.Keys;
    count, totalSize := 0, 0;
    ScanBegins(fs, unreadable);
    while entries != {}
      invariant entries <= fs.Keys
      invariant Scanning(fs, entries, unreadable, count, totalSize)
      decreases |entries|
    {
      var name :| name in entries;
      if Counted(name, fs[name]) {
        if name in unreadable {
          assert name in Sizes(fs).Keys;
          return false, 0, 0;
        }
        var newTotal := totalSize + fs[name].size;
        ScanSees(fs, entries, unreadable, count, totalSize, name, newTotal);
        count, totalSize := count + 1, newTotal;
      } else {
        ScanPasses(fs, entries, unreadable, count, totalSize, name);
      }
      entries := entries - {name};
    }
    ScanFinishes(fs, unreadable, count, totalSize);
    return true, count, totalSize;
  }

  class Storage {
    var fs: Files
    var metaCount: int
    var metaTotalBytes: int

    ghost function Now(): State
      reads this
    {
      State(fs, metaCount, metaTotalBytes)
    }

    constructor (fs: Files)
      ensures Now() == State(fs, 0, 0)
    {
      this.fs, metaCount, metaTotalBytes := fs, 0, 0;
    }

    static method NewNZBStorage(fs: Files, lists: bool, unreadable: set<string>) returns (s: Option<Storage>)
      ensures s.Some? <==> lists && unreadable !! Sizes(fs).Keys
      ensures s.Some? ==> fresh(s.value) && s.value.fs == fs && Exact(s.value.Now())
    {
      var storage := new Storage(fs);
      var ok := storage.Recalculate(lists, unreadable);
      return if ok then Some(storage) else None;
    }

    /** A scan; if the listing or the size of one file cannot be read, nothing changes. */
    method Recalculate(lists: bool, unreadable: set<string>) returns (ok: bool)
      modifies this`metaCount, this`metaTotalBytes
      ensures ok <==> lists && unreadable !! Sizes(fs).Keys
      ensures ok ==> Exact(Now())
      ensures !ok ==> metaCount == old(metaCount) && metaTotalBytes == old(metaTotalBytes)
    {
      if !lists { return false; }
      var count, totalSize;
      ok, count, totalSize := Scan(fs, unreadable);
      if ok { metaCount, metaTotalBytes := count, totalSize; }
    }

    method AddNZB(id: string, size: nat, env: Env) returns (ok: bool)
      modifies this
      ensures ok == AddSucceeds(old(fs), id, env)
      ensures Now() == Add(old(Now()), id, size, env)
    {
      if !env.encodes { return false; }
      var path := MetaName(id);
      var oldSize, alreadyExists := 0, false;
      if !env.stats { return false; }
      if path in fs {
        alreadyExists, oldSize := true, fs[path].size;
      }
      var tmpPath := TempName(id);
      if !Writes(fs, id, env) {
        if env.partial.Some? && !(tmpPath in fs && fs[tmpPath].Dir?) {
          fs := fs[tmpPath := File(env.partial.value)];
        }
        return false;
      }
      var mayRename := Renames(fs, id, env);
      ghost var before := fs;
      fs := fs[tmpPath := File(size)];
      if !mayRename {
        if env.removes {
          fs := fs - {tmpPath};
          assert fs == before - {tmpPath};
        }
        return false;
      }
      fs := fs - {tmpPath};
      fs := fs[path := File(size)];
      assert fs == (before - {tmpPath})[path := File(size)];
      if alreadyExists {
        metaTotalBytes := metaTotalBytes + (size - oldSize);
      } else {
        metaCount := metaCount + 1;
        metaTotalBytes := metaTotalBytes + size;
      }
      return true;
    }

    method DeleteNZB(id: string, env: Env) returns (ok: bool)
      modifies this
      ensures ok == DeleteSucceeds(env)
      ensures Now() == Delete(old(Now()), id, env)
    {
      var path := MetaName(id);
      var oldSize, alreadyExists := 0, false;
      if !env.stats { return false; }
      if path in fs {
        alreadyExists, oldSize := true, fs[path].size;
      }
      if !env.removes { return false; }
      fs := fs - {path};
      if alreadyExists {
        if metaCount > 0 { metaCount := metaCount - 1; }
        metaTotalBytes := metaTotalBytes - oldSize;
        if metaTotalBytes < 0 { metaTotalBytes := 0; }
      } else {
        assert fs == old(fs);
      }
      return true;
    }
  }
}
