/**
 * The file registry and fault localisation of nodes/fixer_node.py: per-file entries, building and
 * refreshing the index against a file system, the stack-frame scanner, the depth-bounded fan-out
 * over the import/call graph and the selection of relevant files.
 *
 * md5 and the class/import/call regular expressions are taken as given functions (`Extractors`);
 * the file system is a map from path to modification time and content.
 */
module FileIndex {
  import opened Strings

  /** The extension of the files the index holds. */
  const JavaExt: string := ".java"

  /** One index entry: the dictionary `build_file_entry` returns. */
  datatype FileEntry = FileEntry(
    path: string,
    content: string,
    className: string,
    imports: seq<string>,
    calls: seq<string>,
    lastModified: int,
    checksum: string)

  /** md5 and the three lexical extractors, uninterpreted. */
  datatype Extractors = Extractors(
    md5: string -> string,
    classOf: string -> Option<string>,
    importsOf: string -> seq<string>,
    callsOf: string -> seq<string>)

  /** What the file system holds at a path. */
  datatype DiskFile = DiskFile(mtime: int, content: string)

  /** The file system: written in place by patching and rollback. */
  class Disk {
    var files: map<string, DiskFile>

    constructor (files: map<string, DiskFile>)
      ensures this.files == files
    {
      this.files := files;
    }
  }

  /** `build_file_entry`: read the file, fall back to the file-name stem for the class name. */
  function BuildFileEntry(path: string, f: DiskFile, ex: Extractors): FileEntry {
    var declared := ex.classOf(f.content);
    FileEntry(
      path,
      f.content,
      if declared.Some? then declared.value else Stem(Basename(path)),
      ex.importsOf(f.content),
      ex.callsOf(f.content),
      f.mtime,
      ex.md5(f.content))
  }

  /** A freshly built entry agrees with the disk it was read from, and its class name is either the
      declared one or a prefix of the file name. */
  lemma BuildFileEntryShape(path: string, f: DiskFile, ex: Extractors)
    ensures var e := BuildFileEntry(path, f, ex);
      && e.path == path && e.content == f.content && e.lastModified == f.mtime
      && e.checksum == ex.md5(e.content)
      && (ex.classOf(f.content).None? ==> StartsWith(Basename(path), e.className))
  {
  }

  /** No key occurs twice (stated from the back, the way dictionaries grow). */
  ghost predicate Distinct(s: seq<string>)
    decreases |s|
  {
    s == [] || (s[|s| - 1] !in s[..|s| - 1] && Distinct(s[..|s| - 1]))
  }

  /** In a sequence without repetitions an element does not occur before its own position. */
  lemma {:induction false} DistinctNotBefore(s: seq<string>, i: nat)
    requires Distinct(s) && i < |s|
    ensures s[i] !in s[..i]
    decreases |s|
  {
    var n := |s| - 1;
    if i < n {
      var init := s[..n];
      assert init[i] == s[i] && init[..i] == s[..i];
      DistinctNotBefore(init, i);
    }
  }

  /** Every element of `order` is a key of `m`, stated by position. */
  ghost predicate AllIn(order: seq<string>, m: map<string, FileEntry>) {
    forall j :: 0 <= j < |order| ==> order[j] in m
  }

  /** The set of elements of `s`. */
  ghost function Elems(s: seq<string>): set<string>
    decreases |s|
  {
    if s == [] then {} else Elems(s[..|s| - 1]) + {s[|s| - 1]}
  }

  lemma {:induction false} ElemsIn(s: seq<string>)
    ensures forall x :: x in Elems(s) <==> x in s
    decreases |s|
  {
    if s != [] {
      ElemsIn(s[..|s| - 1]);
      assert s == s[..|s| - 1] + [s[|s| - 1]];
    }
  }

  /** A Python dict from file name to entry: its keys in insertion order and the mapping. */
  datatype Listing = Listing(order: seq<string>, entries: map<string, FileEntry>) {
    ghost predicate Valid() {
      Distinct(order) && Elems(order) == entries.Keys
    }
  }

  lemma ValidAllIn(d: Listing)
    requires d.Valid()
    ensures AllIn(d.order, d.entries)
  {
    ElemsIn(d.order);
  }

  /** The elements of `s` that are in `keep`, in order. */
  function Filter(s: seq<string>, keep: set<string>): (r: seq<string>)
    ensures Elems(r) == Elems(s) * keep
    ensures Distinct(s) ==> Distinct(r)
    ensures |r| <= |s|
    decreases |s|
  {
    if s == [] then []
    else
      var n := |s| - 1;
      var init := Filter(s[..n], keep);
      if s[n] in keep then
        assert (init + [s[n]])[..|init|] == init;
        assert Distinct(s) ==> s[n] !in init by {
          ElemsIn(init);
          ElemsIn(s[..n]);
        }
        init + [s[n]]
      else init
  }

  /** `{name: d[name] for name in names if name in d}`, keeping the dictionary's order. */
  function Restrict(d: Listing, names: set<string>): (r: Listing)
    requires d.Valid()
    ensures r.Valid()
    ensures r.entries.Keys == d.entries.Keys * names
    ensures forall k :: k in r.entries ==> r.entries[k] == d.entries[k]
  {
    Listing(Filter(d.order, names), map k | k in d.entries && k in names :: d.entries[k])
  }

  // ---------------------------------------------------------------------------------------------
  // Building the index

  /** Inserting into a Python dict: a new key goes last, an existing key keeps its place. */
  function Insert(d: Listing, k: string, e: FileEntry): (r: Listing)
    requires d.Valid()
    ensures r.Valid() && r.entries == d.entries[k := e]
    ensures k in d.entries ==> r.order == d.order
    ensures k !in d.entries ==> r.order == d.order + [k]
  {
    if k in d.entries then Listing(d.order, d.entries[k := e])
    else
      assert (d.order + [k])[..|d.order|] == d.order;
      assert k !in d.order by { ElemsIn(d.order); }
      Listing(d.order + [k], d.entries[k := e])
  }

  /** The base names of the `.java` files of a walk. */
  function JavaNames(walk: seq<string>): set<string>
    decreases |walk|
  {
    if walk == [] then {}
    else
      var p := walk[|walk| - 1];
      JavaNames(walk[..|walk| - 1]) + if EndsWith(p, JavaExt) then {Basename(p)} else {}
  }

  /** `build_file_index`: one entry per `.java` path of the walk, keyed by its base name (a later
      path with the same base name replaces the entry but not its position). */
  function BuildListing(walk: seq<string>, files: map<string, DiskFile>, ex: Extractors): (r: Listing)
    requires forall i :: 0 <= i < |walk| ==> walk[i] in files
    ensures r.Valid()
    ensures r.entries.Keys == JavaNames(walk)
    decreases |walk|
  {
    if walk == [] then Listing([], map[])
    else
      var n := |walk| - 1;
      var p := walk[n];
      var prev := BuildListing(walk[..n], files, ex);
      if EndsWith(p, JavaExt) then Insert(prev, Basename(p), BuildFileEntry(p, files[p], ex)) else prev
  }

  /** Every entry was built from a `.java` path of the walk whose base name is its key. */
  lemma {:induction false} BuildListingEntries(walk: seq<string>, files: map<string, DiskFile>, ex: Extractors, k: string)
    requires forall i :: 0 <= i < |walk| ==> walk[i] in files
    requires k in BuildListing(walk, files, ex).entries
    ensures var e := BuildListing(walk, files, ex).entries[k];
      && e.path in walk && EndsWith(e.path, JavaExt) && Basename(e.path) == k
      && e == BuildFileEntry(e.path, files[e.path], ex)
    decreases |walk|
  {
    var n := |walk| - 1;
    var p := walk[n];
    var init := walk[..n];
    assert forall i :: 0 <= i < n ==> init[i] == walk[i];
    var r := BuildListing(walk, files, ex);
    if EndsWith(p, JavaExt) && k == Basename(p) {
      assert r.entries[k] == BuildFileEntry(p, files[p], ex);
    } else {
      var prev := BuildListing(init, files, ex);
      assert r.entries[k] == prev.entries[k];
      BuildListingEntries(init, files, ex, k);
      assert prev.entries[k].path in walk by {
        var q := prev.entries[k].path;
        var i :| 0 <= i < n && init[i] == q;
        assert walk[i] == q;
      }
    }
  }

  /** Of several `.java` paths with the same base name, the last one in the walk is indexed. */
  lemma BuildListingLastWins(walk: seq<string>, files: map<string, DiskFile>, ex: Extractors)
    requires forall i :: 0 <= i < |walk| ==> walk[i] in files
    requires walk != [] && EndsWith(walk[|walk| - 1], JavaExt)
    ensures var p := walk[|walk| - 1];
      BuildListing(walk, files, ex).entries[Basename(p)] == BuildFileEntry(p, files[p], ex)
  {
  }

  // ---------------------------------------------------------------------------------------------
  // Refreshing the index

  /** What `refresh_file_index` makes of one entry whose path exists: unchanged when the mtime is
      the stored one or the checksum still matches, otherwise rebuilt from disk. */
  function RefreshEntry(e: FileEntry, f: DiskFile, ex: Extractors): FileEntry {
    if Stale(e, f, ex) then BuildFileEntry(e.path, f, ex) else e
  }

  /** The stored entry is out of date: the mtime moved and the content hashes differently. */
  predicate Stale(e: FileEntry, f: DiskFile, ex: Extractors) {
    f.mtime != e.lastModified && ex.md5(f.content) != e.checksum
  }

  /** The refreshed mapping: entries whose path is gone are dropped, the rest refreshed. */
  function RefreshedEntries(m: map<string, FileEntry>, files: map<string, DiskFile>, ex: Extractors): (r: map<string, FileEntry>)
    ensures r.Keys <= m.Keys
    ensures forall k :: k in m ==> (k in r <==> m[k].path in files)
  {
    map k | k in m && m[k].path in files :: RefreshEntry(m[k], files[m[k].path], ex)
  }

  /** The keys of `order` whose entry's path still exists, in order. */
  function Surviving(order: seq<string>, m: map<string, FileEntry>, files: map<string, DiskFile>): (r: seq<string>)
    decreases |order|
  {
    if order == [] then []
    else
      var n := |order| - 1;
      Surviving(order[..n], m, files) + (if order[n] in m && m[order[n]].path in files then [order[n]] else [])
  }

  /** Refresh keeps exactly the entries whose file still exists. */
  lemma {:induction false} RefreshPrunesDeleted(m: map<string, FileEntry>, files: map<string, DiskFile>, ex: Extractors, k: string)
    requires k in m
    ensures k in RefreshedEntries(m, files, ex) <==> m[k].path in files
  {
  }

  /** An entry whose mtime is unchanged, or whose content hashes to the stored checksum, is left
      exactly as it was, stale `lastModified` included. */
  lemma RefreshLeavesUnchanged(m: map<string, FileEntry>, files: map<string, DiskFile>, ex: Extractors, k: string)
    requires k in m && m[k].path in files
    requires files[m[k].path].mtime == m[k].lastModified || ex.md5(files[m[k].path].content) == m[k].checksum
    ensures RefreshedEntries(m, files, ex)[k] == m[k]
  {
  }

  /** Only an entry whose mtime and checksum both changed is rebuilt, and then wholesale. */
  lemma RefreshRebuildsChanged(m: map<string, FileEntry>, files: map<string, DiskFile>, ex: Extractors, k: string)
    requires k in m && m[k].path in files
    requires RefreshedEntries(m, files, ex)[k] != m[k]
    ensures files[m[k].path].mtime != m[k].lastModified
    ensures ex.md5(files[m[k].path].content) != m[k].checksum
    ensures RefreshedEntries(m, files, ex)[k] == BuildFileEntry(m[k].path, files[m[k].path], ex)
  {
  }

  /** With no change on disk (every path present with its stored mtime) refresh changes nothing. */
  lemma RefreshWithoutChanges(m: map<string, FileEntry>, files: map<string, DiskFile>, ex: Extractors)
    requires forall k :: k in m ==> m[k].path in files && files[m[k].path].mtime == m[k].lastModified
    ensures RefreshedEntries(m, files, ex) == m
  {
  }

  /** Refreshing twice against the same disk is the same as refreshing once. */
  lemma RefreshIdempotent(m: map<string, FileEntry>, files: map<string, DiskFile>, ex: Extractors)
    ensures RefreshedEntries(RefreshedEntries(m, files, ex), files, ex) == RefreshedEntries(m, files, ex)
  {
    var r := RefreshedEntries(m, files, ex);
    forall k | k in r
      ensures RefreshEntry(r[k], files[r[k].path], ex) == r[k]
    {
      assert r[k].path == m[k].path;
    }
  }

  /** The index as a mutable Python dict. */
  class FileIndex {
    var keys: seq<string>
    var entries: map<string, FileEntry>

    ghost predicate Valid()
      reads this
    {
      Listing(keys, entries).Valid()
    }

    function Snapshot(): (r: Listing)
      reads this
      ensures r.order == keys && r.entries == entries
    {
      Listing(keys, entries)
    }

    /** `build_file_index` over the `.java` paths of a directory walk. */
    constructor Build(walk: seq<string>, disk: Disk, ex: Extractors)
      requires forall i :: 0 <= i < |walk| ==> walk[i] in disk.files
      ensures Valid()
      ensures Snapshot() == BuildListing(walk, disk.files, ex)
    {
      var l := BuildListing(walk, disk.files, ex);
      keys := l.order;
      entries := l.entries;
    }

    /** The index kept in the session state, taken up again by a later round. */
    constructor Of(l: Listing)
      requires l.Valid()
      ensures Valid() && Snapshot() == l
    {
      keys := l.order;
      entries := l.entries;
    }

    /** `refresh_file_index`: visit a snapshot of the keys, deleting entries whose file is gone and
        replacing those whose content changed, in place. */
    method Refresh(disk: Disk, ex: Extractors)
      requires Valid()
      modifies this
      ensures Valid()
      ensures keys == Surviving(old(keys), old(entries), disk.files)
      ensures entries == RefreshedEntries(old(entries), disk.files, ex)
    {
      ValidAllIn(Snapshot());
      var ks, es := RefreshLoop(keys, entries, disk.files, ex);
      PartlyRefreshedAll(entries, keys, disk.files, ex);
      SurvivingValid(entries, keys, disk.files, ex);
      keys, entries := ks, es;
    }
  }

  lemma {:induction false} SurvivingMembers(order: seq<string>, m: map<string, FileEntry>, files: map<string, DiskFile>)
    ensures var r := Surviving(order, m, files);
      && (forall x :: x in r <==> x in order && x in m && m[x].path in files)
      && (Distinct(order) ==> Distinct(r))
    decreases |order|
  {
    if order != [] {
      var n := |order| - 1;
      SurvivingMembers(order[..n], m, files);
      assert order == order[..n] + [order[n]];
      var init := Surviving(order[..n], m, files);
      var r := Surviving(order, m, files);
      if Distinct(order) && r != init {
        assert r == init + [order[n]];
        assert r[..|r| - 1] == init;
        assert order[n] !in init;
      }
    }
  }

  /** The mapping after the refresh loop has visited the keys in `done`, each with the value it had
      when the loop started. */
  ghost function PartlyRefreshed(m: map<string, FileEntry>, done: seq<string>, files: map<string, DiskFile>, ex: Extractors): map<string, FileEntry>
    decreases |done|
  {
    if done == [] then m
    else
      var n := |done| - 1;
      var prev := PartlyRefreshed(m, done[..n], files, ex);
      var k := done[n];
      if k !in m then prev
      else if m[k].path !in files then prev - {k}
      else if Stale(m[k], files[m[k].path], ex) then prev[k := BuildFileEntry(m[k].path, files[m[k].path], ex)]
      else prev
  }

  /** Over distinct keys the loop's result is the comprehension `RefreshedEntries` restricted to
      the visited keys. */
  lemma {:induction false} PartlyRefreshedChar(m: map<string, FileEntry>, done: seq<string>, files: map<string, DiskFile>, ex: Extractors)
    requires Distinct(done)
    ensures PartlyRefreshed(m, done, files, ex)
      == map k | k in m && (k in done ==> m[k].path in files) ::
           if k in done then RefreshEntry(m[k], files[m[k].path], ex) else m[k]
    decreases |done|
  {
    if done != [] {
      var n := |done| - 1;
      PartlyRefreshedChar(m, done[..n], files, ex);
      assert done == done[..n] + [done[n]];
    }
  }

  /** Once every key has been visited the loop's mapping is `RefreshedEntries`. */
  lemma PartlyRefreshedAll(m: map<string, FileEntry>, order: seq<string>, files: map<string, DiskFile>, ex: Extractors)
    requires Listing(order, m).Valid()
    ensures PartlyRefreshed(m, order, files, ex) == RefreshedEntries(m, files, ex)
  {
    PartlyRefreshedChar(m, order, files, ex);
    var p, r := PartlyRefreshed(m, order, files, ex), RefreshedEntries(m, files, ex);
    forall k | k in m ensures k in order { ElemsIn(order); }
    assert p.Keys == r.Keys;
    forall k | k in p ensures p[k] == r[k] { }
  }

  /** The surviving keys, in order, are exactly the refreshed mapping's keys. */
  lemma SurvivingValid(m: map<string, FileEntry>, order: seq<string>, files: map<string, DiskFile>, ex: Extractors)
    requires Listing(order, m).Valid()
    ensures Listing(Surviving(order, m, files), RefreshedEntries(m, files, ex)).Valid()
  {
    var s := Surviving(order, m, files);
    SurvivingMembers(order, m, files);
    ElemsIn(order);
    ElemsIn(s);
    assert Elems(s) == RefreshedEntries(m, files, ex).Keys;
  }

  /** What one more visited key does to the refresh loop's specification: `done` and `prev` are
      the surviving keys and the mapping before key `i`, `done'` and `next` after it. */
  lemma RefreshLoopStep(order: seq<string>, m: map<string, FileEntry>, files: map<string, DiskFile>, ex: Extractors, i: nat,
                        done: seq<string>, prev: map<string, FileEntry>, done': seq<string>, next: map<string, FileEntry>)
    requires i < |order| && order[i] in m
    requires done == Surviving(order[..i], m, files) && prev == PartlyRefreshed(m, order[..i], files, ex)
    requires var k := order[i];
      done' == (if m[k].path in files then done + [k] else done)
      && next == if m[k].path !in files then prev - {k}
                 else if Stale(m[k], files[m[k].path], ex) then prev[k := BuildFileEntry(m[k].path, files[m[k].path], ex)]
                 else prev
    ensures done' == Surviving(order[..i + 1], m, files) && next == PartlyRefreshed(m, order[..i + 1], files, ex)
  {
    assert order[..i + 1][..i] == order[..i];
  }

  /** Removing the key after `done` from `done + [k] + tail`, or moving it into `done`. */
  lemma DropAt(done: seq<string>, k: string, tail: seq<string>)
    ensures var keys := done + ([k] + tail);
      keys[..|done|] == done && keys[|done| + 1..] == tail && keys == (done + [k]) + tail
  {
    var keys := done + ([k] + tail);
    assert keys[..|done|] == done;
    assert keys[|done| + 1..] == tail;
  }

  /** The loop of `refresh_file_index` over a snapshot of the items. */
  method RefreshLoop(keys0: seq<string>, entries0: map<string, FileEntry>, files: map<string, DiskFile>, ex: Extractors)
    returns (keys: seq<string>, entries: map<string, FileEntry>)
    requires AllIn(keys0, entries0)
    ensures keys == Surviving(keys0, entries0, files)
    ensures entries == PartlyRefreshed(entries0, keys0, files, ex)
  {
    keys, entries := keys0, entries0;
    var i, kept := 0, 0;
    ghost var done: seq<string> := [];
    while i < |keys0|
      invariant 0 <= i <= |keys0|
      invariant done == Surviving(keys0[..i], entries0, files)
      invariant keys == done + keys0[i..]
      invariant kept == |done|
      invariant entries == PartlyRefreshed(entries0, keys0[..i], files, ex)
    {
      var name, info := keys0[i], entries0[keys0[i]];
      ghost var done0, entries1 := done, entries;
      ghost var tail := keys0[i + 1..];
      assert keys0[i..] == [name] + tail;
      DropAt(done, name, tail);
      if info.path !in files {
        keys := keys[..kept] + keys[kept + 1..];
        entries := entries - {name};
        assert keys == done + tail;
      } else {
        kept := kept + 1;
        done := done + [name];
        assert keys == done + tail;
        var f := files[info.path];
        if f.mtime != info.lastModified {
          if ex.md5(f.content) != info.checksum {
            entries := entries[name := BuildFileEntry(info.path, f, ex)];
          }
        }
      }
      RefreshLoopStep(keys0, entries0, files, ex, i, done0, entries1, done, entries);
      i := i + 1;
    }
    assert keys0[..|keys0|] == keys0;
  }
}
