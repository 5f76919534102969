/**
 * main_graph.py: the repair loop. The graph runs the fixer, then the testing node, then routes:
 * a DEPLOY or NEEDS_REVIEW decision ends the run, three or more retries restore the backed-up
 * files and end it, and anything else counts a retry and goes back to the fixer.
 *
 * What the outside world contributes to a round (the error log, the repair model's reply, the
 * validator and the clock) is a parameter, as are the file system's refusals to write.
 */
module MainGraph {
  import opened Strings
  import opened Json
  import opened FileIndex
  import opened PatchApply
  import opened Session
  import opened FixerNode
  import opened TestingNode

  // ---------------------------------------------------------------------------------------------
  // Restoring the backup

  /** `path_map.get(filename)` when it is truthy: present and not empty. */
  function RestoreTarget(pathMap: map<string, string>, name: string): Option<string> {
    if name in pathMap && pathMap[name] != "" then Some(pathMap[name]) else None
  }

  /** The file system after restoring the files `names` in order from `backup` to the paths of
      `pathMap`. A name without a path is skipped, as is a write the file system refuses; every
      write gets the modification time `now`. */
  function Restored(files: map<string, DiskFile>, names: seq<string>, backup: map<string, string>,
                    pathMap: map<string, string>, writable: string -> bool, now: int): map<string, DiskFile>
    decreases |names|
  {
    if names == [] then files
    else
      var n := |names| - 1;
      var prev := Restored(files, names[..n], backup, pathMap, writable, now);
      var t := RestoreTarget(pathMap, names[n]);
      if t.Some? && writable(t.value) then prev[t.value := DiskFile(now, Lookup(backup, names[n]))] else prev
  }

  /** `state.get(key, {})` for the backup and the path map. */
  function OrEmpty(d: Option<TextDict>): TextDict {
    if d.Some? then d.value else TextDict([], map[])
  }

  /** `restore_original_code`: write every backed-up file back to its recorded path; a failed
      write is reported and the loop goes on. */
  method RestoreOriginalCode(s: Session, disk: Disk, writable: string -> bool, now: int)
    modifies disk
    ensures disk.files == Restored(old(disk.files), OrEmpty(s.backup).order, OrEmpty(s.backup).values,
                                   OrEmpty(s.pathMap).values, writable, now)
  {
    var pathMap := OrEmpty(s.pathMap).values;
    var backup := OrEmpty(s.backup);
    var i := 0;
    while i < |backup.order|
      invariant 0 <= i <= |backup.order|
      invariant disk.files == Restored(old(disk.files), backup.order[..i], backup.values, pathMap, writable, now)
    {
      var filename := backup.order[i];
      var originalContent := Lookup(backup.values, filename);
      var absPath := if filename in pathMap then pathMap[filename] else "";
      if absPath != "" {
        if writable(absPath) {
          disk.files := disk.files[absPath := DiskFile(now, originalContent)];
        }
      }
      assert backup.order[..i + 1][..i] == backup.order[..i];
      i := i + 1;
    }
    assert backup.order[..|backup.order|] == backup.order;
  }

  /** A path no restored name maps to is left exactly as it was. */
  lemma {:induction false} RestoreUntouched(files: map<string, DiskFile>, names: seq<string>, backup: map<string, string>,
                                            pathMap: map<string, string>, writable: string -> bool, now: int, p: string)
    requires forall i :: 0 <= i < |names| ==> RestoreTarget(pathMap, names[i]) != Some(p)
    ensures var r := Restored(files, names, backup, pathMap, writable, now);
      (p in r <==> p in files) && (p in files ==> r[p] == files[p])
    decreases |names|
  {
    if names != [] {
      var n := |names| - 1;
      RestoreUntouched(files, names[..n], backup, pathMap, writable, now, p);
    }
  }

  /** The last name that maps to a writable path decides what that path holds: its backed-up
      content, whatever any write before it did and whether or not other writes failed. */
  lemma {:induction false} RestoreWritesBackup(files: map<string, DiskFile>, names: seq<string>, backup: map<string, string>,
                                               pathMap: map<string, string>, writable: string -> bool, now: int, i: nat)
    requires i < |names| && RestoreTarget(pathMap, names[i]).Some? && writable(RestoreTarget(pathMap, names[i]).value)
    requires forall j :: i < j < |names| ==> RestoreTarget(pathMap, names[j]) != RestoreTarget(pathMap, names[i])
    ensures var p := RestoreTarget(pathMap, names[i]).value;
      var r := Restored(files, names, backup, pathMap, writable, now);
      p in r && r[p] == DiskFile(now, Lookup(backup, names[i]))
    decreases |names|
  {
    var n := |names| - 1;
    if i < n {
      RestoreWritesBackup(files, names[..n], backup, pathMap, writable, now, i);
    }
  }

  /** Paths that never collide: different names of the backup map to different paths. */
  ghost predicate Injective(names: seq<string>, pathMap: map<string, string>) {
    forall i, j :: 0 <= i < j < |names| && names[i] in pathMap && names[j] in pathMap ==> pathMap[names[i]] != pathMap[names[j]]
  }

  /** Restoring the backup a first round took, with distinct paths that all accept the write, puts
      every indexed file back to its backed-up content. */
  lemma RestoreRecoversBackup(files: map<string, DiskFile>, l: Listing, writable: string -> bool, now: int, k: string)
    requires l.Valid() && Injective(l.order, PathsOf(l).values)
    requires forall q :: q in l.entries ==> l.entries[q].path != "" && writable(l.entries[q].path)
    requires k in l.entries
    ensures var r := Restored(files, l.order, Contents(l).values, PathsOf(l).values, writable, now);
      l.entries[k].path in r && r[l.entries[k].path] == DiskFile(now, l.entries[k].content)
  {
    var pm := PathsOf(l).values;
    ElemsIn(l.order);
    var i :| 0 <= i < |l.order| && l.order[i] == k;
    forall j | i < j < |l.order| ensures RestoreTarget(pm, l.order[j]) != RestoreTarget(pm, l.order[i]) {
      assert l.order[j] in l.entries;
    }
    RestoreWritesBackup(files, l.order, Contents(l).values, pm, writable, now, i);
  }

  // ---------------------------------------------------------------------------------------------
  // Routing

  /** Where the graph goes after the testing node. */
  datatype Route = FixCode | Finish

  /** The validator's decision ends the run. */
  predicate Settled(s: Session) {
    s.decision == Some(JStr("DEPLOY")) || s.decision == Some(JStr("NEEDS_REVIEW"))
  }

  /** How many retries end the run. */
  const MaxRetries: int := 3

  /** `router`: end on DEPLOY or NEEDS_REVIEW; with three or more retries restore the backup and
      end; otherwise count a retry and go back to the fixer. */
  method Router(s: Session, disk: Disk, writable: string -> bool, now: int) returns (r: Session, route: Route)
    modifies disk
    ensures Settled(s) ==> route == Finish && r == s && disk.files == old(disk.files)
    ensures !Settled(s) && s.retries.GetOr(0) >= MaxRetries ==>
      route == Finish && r == s
      && disk.files == Restored(old(disk.files), OrEmpty(s.backup).order, OrEmpty(s.backup).values,
                                OrEmpty(s.pathMap).values, writable, now)
    ensures !Settled(s) && s.retries.GetOr(0) < MaxRetries ==>
      route == FixCode && r == s.(retries := Some(s.retries.GetOr(0) + 1)) && disk.files == old(disk.files)
  {
    r := s;
    if s.decision == Some(JStr("DEPLOY")) {
      route := Finish;
    } else if s.decision == Some(JStr("NEEDS_REVIEW")) {
      route := Finish;
    } else if s.retries.GetOr(0) >= MaxRetries {
      RestoreOriginalCode(s, disk, writable, now);
      route := Finish;
    } else {
      r := s.(retries := Some(s.retries.GetOr(0) + 1));
      route := FixCode;
    }
  }

  // ---------------------------------------------------------------------------------------------
  // The graph

  /** What the world contributes to one round: the error log, the model's reply, the clock of the
      patch writes, the validator and the order of the keys of the dictionaries it returns. */
  datatype Round = Round(log: string, reply: string, clock: nat -> Tick, validate: Validator, keys: KeyOrder)

  /** How a run ended: at the router's END, or by an exception escaping the testing node. */
  datatype Run = Finished(state: Session) | Crashed(state: Session)

  /** The most rounds a run can take when it starts with the retry counter at `r0`. */
  function RoundBound(r0: int): nat {
    if r0 >= MaxRetries then 1 else (MaxRetries + 1 - r0) as nat
  }

  /** The compiled graph: fixer, testing node and router, round after round. Every round that goes
      back to the fixer raises the retry counter, so the run ends. */
  method RunGraph(s0: Session, walk: seq<string>, disk: Disk, ex: Extractors, world: nat -> Round,
                  writable: string -> bool, now: int) returns (run: Run, rounds: nat)
    requires Resumable(s0, walk, disk.files)
    modifies disk
    ensures 1 <= rounds <= RoundBound(s0.retries.GetOr(0))
    ensures run.Finished? ==> Settled(run.state) || run.state.retries.GetOr(0) >= MaxRetries
  {
    var s := s0;
    rounds := 0;
    var r0 := s0.retries.GetOr(0);
    while true
      invariant Resumable(s, walk, disk.files)
      invariant s.retries.GetOr(0) >= r0 + rounds
      invariant rounds > 0 ==> s.retries.GetOr(0) <= MaxRetries
      decreases MaxRetries - s.retries.GetOr(0)
    {
      var round := world(rounds);
      var fixed := NodeFixer(s, walk, disk, ex, round.log, round.reply, round.clock);
      var tested := TestingNode.TestingNode(fixed, round.validate, round.keys);
      rounds := rounds + 1;
      if tested.None? {
        return Crashed(fixed), rounds;
      }
      TestingKeepsRepairState(fixed, round.validate, round.keys);
      var next, route := Router(tested.value, disk, writable, now);
      if route == Finish {
        return Finished(next), rounds;
      }
      s := next;
    }
  }

  /** The graph as main_graph.py starts it, with the retry counter at 1, takes at most three rounds. */
  method RunFromStart(walk: seq<string>, disk: Disk, ex: Extractors, world: nat -> Round,
                      writable: string -> bool, now: int) returns (run: Run, rounds: nat)
    requires forall i :: 0 <= i < |walk| ==> walk[i] in disk.files
    modifies disk
    ensures 1 <= rounds <= 3
    ensures run.Finished? ==> Settled(run.state) || run.state.retries.GetOr(0) >= MaxRetries
  {
    run, rounds := RunGraph(InitialSession(), walk, disk, ex, world, writable, now);
  }
}
