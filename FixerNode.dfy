/**
 * `node_fixer` in nodes/fixer_node.py: one repair round. It reads the tail of the error log,
 * builds the file index on the first round and refreshes it on later ones, selects the files the
 * log points at, applies the repair model's reply to them, takes the backup of the index on the
 * first round only, and records the listings the testing node compares.
 *
 * Locating and reading the error log, the prompt and the model call are outside the model: the
 * log text and the model's reply are parameters, and so is the directory walk.
 */
module FixerNode {
  import opened Strings
  import opened FileIndex
  import opened FaultLocation
  import opened PatchApply
  import opened Session

  /** How many characters of the error log a round keeps. */
  const LogTail: nat := 5000

  /** `s[-n:]`. */
  function Tail(s: string, n: nat): (r: string)
    ensures |r| == if |s| <= n then |s| else n
    ensures EndsWith(s, r)
  {
    if |s| <= n then s else s[|s| - n..]
  }

  /** Every entry of the index points at a file that exists. */
  ghost predicate OnDisk(l: Listing, files: map<string, DiskFile>) {
    forall k :: k in l.entries ==> l.entries[k].path in files
  }

  /** What a round needs of the state: a stored index is a well-formed dictionary, and without
      one every path of the walk exists. */
  ghost predicate Resumable(s: Session, walk: seq<string>, files: map<string, DiskFile>) {
    (s.fileIndex.Some? ==> s.fileIndex.value.Valid())
    && (s.fileIndex.None? ==> forall i :: 0 <= i < |walk| ==> walk[i] in files)
  }

  lemma BuildOnDisk(walk: seq<string>, files: map<string, DiskFile>, ex: Extractors)
    requires forall i :: 0 <= i < |walk| ==> walk[i] in files
    ensures OnDisk(BuildListing(walk, files, ex), files)
  {
    forall k | k in BuildListing(walk, files, ex).entries
      ensures BuildListing(walk, files, ex).entries[k].path in files
    {
      BuildListingEntries(walk, files, ex, k);
    }
  }

  /** The index a round works on: built from the walk when the state holds none, otherwise the
      stored one refreshed against the disk. */
  ghost function Reindexed(stored: Option<Listing>, walk: seq<string>, files: map<string, DiskFile>, ex: Extractors): (r: Listing)
    requires stored.Some? ==> stored.value.Valid()
    requires stored.None? ==> forall i :: 0 <= i < |walk| ==> walk[i] in files
    ensures r.Valid() && OnDisk(r, files)
  {
    if stored.None? then
      BuildOnDisk(walk, files, ex);
      BuildListing(walk, files, ex)
    else
      var l := stored.value;
      SurvivingValid(l.entries, l.order, files, ex);
      Listing(Surviving(l.order, l.entries, files), RefreshedEntries(l.entries, files, ex))
  }

  /** `get_relevant_files(error_log, file_index, depth=2)`. */
  ghost function Relevant(errorLog: string, index: Listing): (r: Listing)
    requires index.Valid()
    ensures r.Valid() && r.entries.Keys <= index.entries.Keys
    ensures forall k :: k in r.entries ==> r.entries[k] == index.entries[k]
  {
    var names := ExtractFilenames(errorLog);
    if names == {} then index else Restrict(index, Within(names, index.entries, 2))
  }

  /** The reply applied to the relevant files of the index. */
  ghost function Patched(index: Listing, relevant: Listing, files: map<string, DiskFile>, ex: Extractors,
                         clock: nat -> Tick, reply: string): (r: PatchState)
    requires index.Valid() && OnDisk(index, files)
    requires relevant.Valid() && relevant.entries.Keys <= index.entries.Keys
    requires forall k :: k in relevant.entries ==> relevant.entries[k] == index.entries[k]
    ensures r.entries.Keys == index.entries.Keys
  {
    ApplyBlocks(relevant, ex, clock, PatchState(index.entries, files, 0), ReplyBlocks(reply))
  }

  /** The state after the round, from the patched index `after` and the selection `relevant`. */
  function Fixed(s: Session, errorLog: string, after: Listing, relevant: Listing): Session
    requires relevant.entries.Keys <= after.entries.Keys
  {
    var backup := if s.backup.Some? then s.backup.value else Contents(after);
    var pathMap := if s.backup.Some? then s.pathMap else Some(PathsOf(after));
    s.(fileIndex := Some(after),
       relevantFiles := Some(Listing(relevant.order, map k | k in relevant.entries :: after.entries[k])),
       backup := Some(backup),
       pathMap := pathMap,
       originalCode := Some(Listed(backup.order, backup.values)),
       fixedCode := Some(Listed(Filter(after.order, backup.values.Keys), ContentMap(after))),
       originalError := Some(errorLog))
  }

  /** `node_fixer`: the disk holds the patched files and the state records the round. */
  method NodeFixer(s: Session, walk: seq<string>, disk: Disk, ex: Extractors, log: string, reply: string, clock: nat -> Tick)
    returns (r: Session)
    requires Resumable(s, walk, disk.files)
    modifies disk
    ensures var errorLog := Tail(log, LogTail);
      var before := Reindexed(s.fileIndex, walk, old(disk.files), ex);
      var relevant := Relevant(errorLog, before);
      var patched := Patched(before, relevant, old(disk.files), ex, clock, reply);
      disk.files == patched.files && r == Fixed(s, errorLog, Listing(before.order, patched.entries), relevant)
    ensures r.fileIndex.Some? && r.fileIndex.value.Valid() && r.retries == s.retries
  {
    var errorLog := Tail(log, LogTail);
    var index: FileIndex;
    if s.fileIndex.None? {
      index := new FileIndex.Build(walk, disk, ex);
      BuildOnDisk(walk, disk.files, ex);
    } else {
      index := new FileIndex.Of(s.fileIndex.value);
      index.Refresh(disk, ex);
    }
    ghost var before := index.Snapshot();
    assert before == Reindexed(s.fileIndex, walk, disk.files, ex);
    var relevant := GetRelevantFiles(errorLog, index.Snapshot());
    assert relevant == Relevant(errorLog, before);
    var writes := ApplyFixes(reply, relevant, index, disk, ex, clock);
    r := Fixed(s, errorLog, index.Snapshot(), relevant);
  }

  // ---------------------------------------------------------------------------------------------
  // What a round does to the state

  /** A round never adds or drops a key of the index it works on. */
  lemma FixerKeepsIndexKeys(index: Listing, relevant: Listing, files: map<string, DiskFile>, ex: Extractors,
                            clock: nat -> Tick, reply: string, s: Session, errorLog: string)
    requires index.Valid() && OnDisk(index, files)
    requires relevant.Valid() && relevant.entries.Keys <= index.entries.Keys
    requires forall k :: k in relevant.entries ==> relevant.entries[k] == index.entries[k]
    ensures var after := Listing(index.order, Patched(index, relevant, files, ex, clock, reply).entries);
      var r := Fixed(s, errorLog, after, relevant);
      r.fileIndex.Some? && r.fileIndex.value.Valid() && r.fileIndex.value.entries.Keys == index.entries.Keys
  {
  }

  /** Only the first round takes a backup: a state that holds one keeps it and its path map. */
  lemma FixerKeepsBackup(s: Session, errorLog: string, after: Listing, relevant: Listing)
    requires relevant.entries.Keys <= after.entries.Keys && s.backup.Some?
    ensures var r := Fixed(s, errorLog, after, relevant);
      r.backup == s.backup && r.pathMap == s.pathMap
  {
  }

  /** The first round's backup and path map cover the whole index, in its order. */
  lemma FixerBacksUpIndex(s: Session, errorLog: string, after: Listing, relevant: Listing, k: string)
    requires relevant.entries.Keys <= after.entries.Keys && s.backup.None?
    ensures var r := Fixed(s, errorLog, after, relevant);
      r.backup.Some? && r.pathMap.Some?
      && r.backup.value.order == after.order && r.pathMap.value.order == after.order
      && r.backup.value.values.Keys == after.entries.Keys && r.pathMap.value.values.Keys == after.entries.Keys
      && (k in after.entries ==> r.backup.value.values[k] == after.entries[k].content
                                 && r.pathMap.value.values[k] == after.entries[k].path)
  {
  }

  /** The selection is read back from the patched index, in the order it was selected. */
  lemma FixerRereadsRelevant(s: Session, errorLog: string, after: Listing, relevant: Listing)
    requires relevant.Valid() && relevant.entries.Keys <= after.entries.Keys
    ensures var r := Fixed(s, errorLog, after, relevant);
      r.relevantFiles.Some? && r.relevantFiles.value.Valid()
      && r.relevantFiles.value.order == relevant.order
      && r.relevantFiles.value.entries.Keys == relevant.entries.Keys
      && forall k :: k in relevant.entries ==> r.relevantFiles.value.entries[k] == after.entries[k]
  {
  }

  /** A round leaves the validator's fields, the failure feedback and the retry counter alone. */
  lemma FixerKeepsVerdict(s: Session, errorLog: string, after: Listing, relevant: Listing)
    requires relevant.entries.Keys <= after.entries.Keys
    ensures var r := Fixed(s, errorLog, after, relevant);
      r.testFailureReason == s.testFailureReason && r.retries == s.retries
      && r.decision == s.decision && r.detailedReport == s.detailedReport
      && r.recommendations == s.recommendations && r.failureReasons == s.failureReasons
      && r.originalError == Some(errorLog)
  {
  }

  /** `Filter` keeps everything when nothing is excluded. */
  lemma {:induction false} FilterAll(order: seq<string>, keep: set<string>)
    requires forall i :: 0 <= i < |order| ==> order[i] in keep
    ensures Filter(order, keep) == order
    decreases |order|
  {
    if order != [] {
      var n := |order| - 1;
      FilterAll(order[..n], keep);
      assert order == order[..n] + [order[n]];
    }
  }

  /** Because the backup is taken after the reply has been applied, the first round's "original"
      listing is the patched listing: the two texts the validator compares are the same. */
  lemma FirstRoundComparesPatchedCode(s: Session, errorLog: string, after: Listing, relevant: Listing)
    requires after.Valid() && relevant.entries.Keys <= after.entries.Keys && s.backup.None?
    ensures var r := Fixed(s, errorLog, after, relevant);
      r.originalCode == r.fixedCode
  {
    ValidAllIn(after);
    var code := ContentMap(after);
    assert code.Keys == after.entries.Keys;
    FilterAll(after.order, code.Keys);
    assert Contents(after) == TextDict(after.order, code);
  }

  /** A file that a block of the first round's reply patched is backed up with that block's code,
      not with what the file held before the round. */
  lemma FirstBackupHoldsPatch(index: Listing, relevant: Listing, files: map<string, DiskFile>, ex: Extractors,
                              clock: nat -> Tick, reply: string, s: Session, errorLog: string, k: string)
    requires index.Valid() && OnDisk(index, files)
    requires relevant.Valid() && relevant.entries.Keys <= index.entries.Keys
    requires forall k :: k in relevant.entries ==> relevant.entries[k] == index.entries[k]
    requires s.backup.None? && k in index.entries
    requires LastCode(relevant, ReplyBlocks(reply), k).Some?
    ensures var after := Listing(index.order, Patched(index, relevant, files, ex, clock, reply).entries);
      var r := Fixed(s, errorLog, after, relevant);
      r.backup.Some? && k in r.backup.value.values
      && r.backup.value.values[k] == LastCode(relevant, ReplyBlocks(reply), k).value
  {
    ApplyBlocksEntry(relevant, ex, clock, PatchState(index.entries, files, 0), ReplyBlocks(reply), k);
  }
}
