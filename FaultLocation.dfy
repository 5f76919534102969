/**
 * Fault localisation in nodes/fixer_node.py: the stack-frame scanner that finds file names in an
 * error log, the depth-bounded breadth-first fan-out over the import/call graph of the index, the
 * selection of relevant files and the code context built from them.
 */
module FaultLocation {
  import opened Strings
  import opened FileIndex

  // ---------------------------------------------------------------------------------------------
  // The stack-frame scanner: `\bat\s+[\w.$]+\((\w+\.java):\d+\)`, with ASCII `\w` and `\d`

  predicate IsWordChar(c: char) {
    ('a' <= c <= 'z') || ('A' <= c <= 'Z') || ('0' <= c <= '9') || c == '_'
  }

  predicate IsDigit(c: char) {
    '0' <= c <= '9'
  }

  /** The texts of the frame pattern `at\s+[\w.$]+\((\w+\.java):\d+\)` and of a context section. */
  const FramePrefix: string := "at"
  const JavaLine: string := ".java:"
  const SectionHead: string := "\n--- "
  const SectionTail: string := " ---\n"

  /** The characters of `[\w.$]`, a qualified method name. */
  predicate IsQualifiedChar(c: char) {
    IsWordChar(c) || c == '.' || c == '$'
  }

  /** The end of the longest run of characters satisfying `p` that starts at `i`. */
  function RunEnd(s: string, i: nat, p: char -> bool): (j: nat)
    requires i <= |s|
    ensures i <= j <= |s|
    ensures forall t :: i <= t < j ==> p(s[t])
    ensures j == |s| || !p(s[j])
    decreases |s| - i
  {
    if i < |s| && p(s[i]) then RunEnd(s, i + 1, p) else i
  }

  /** The tail `(\w+\.java):\d+\)` of the frame pattern from position `p`: the captured file name
      and the end of the match. */
  function FileAndLine(s: string, p: nat): (r: Option<(string, nat)>)
    requires p <= |s|
    ensures r.Some? ==> p < r.value.1 <= |s|
    ensures r.Some? ==> var name := r.value.0;
      && EndsWith(name, JavaExt) && |name| > 5
      && forall t :: 0 <= t < |name| - 5 ==> IsWordChar(name[t])
  {
    var w := RunEnd(s, p, IsWordChar);
    if w == p || !StartsWith(s[w..], JavaLine) then None
    else
      var d := RunEnd(s, w + 6, IsDigit);
      if d == w + 6 || d == |s| || s[d] != ')' then None
      else
        JavaNameAt(s, p, w);
        Some((s[p..w + 5], d + 1))
  }

  /** Word characters up to `w` followed by `.java:` make a `.java` file name. */
  lemma JavaNameAt(s: string, p: nat, w: nat)
    requires p < w <= |s| && StartsWith(s[w..], JavaLine)
    requires forall t :: p <= t < w ==> IsWordChar(s[t])
    ensures w + 5 <= |s|
    ensures var name := s[p..w + 5];
      && EndsWith(name, JavaExt) && |name| > 5
      && forall t :: 0 <= t < |name| - 5 ==> IsWordChar(name[t])
  {
    assert s[w..][..6] == JavaLine;
    var name := s[p..w + 5];
    assert name[|name| - 5..] == s[w..w + 5] == s[w..][..6][..5];
    forall t | 0 <= t < |name| - 5 ensures IsWordChar(name[t]) {
      assert name[t] == s[p + t];
    }
  }

  /** The frame pattern matched at position `i`. Every repetition in the pattern is followed by a
      character outside its class, so the greedy runs are the only way the pattern can match. */
  function MatchFrame(s: string, i: nat): (r: Option<(string, nat)>)
    requires i <= |s|
    ensures r.Some? ==> i < r.value.1 <= |s|
    ensures r.Some? ==> EndsWith(r.value.0, JavaExt) && |r.value.0| > 5
  {
    if !((i == 0 || !IsWordChar(s[i - 1])) && StartsWith(s[i..], FramePrefix)) then None
    else
      var ws := RunEnd(s, i + 2, IsSpace);
      var q := RunEnd(s, ws, IsQualifiedChar);
      if ws == i + 2 || q == ws || q == |s| || s[q] != '(' then None
      else FileAndLine(s, q + 1)
  }

  /** `re.findall` from position `i`: a match resumes the search at its end, a failure one further. */
  function ScanFrames(s: string, i: nat): seq<string>
    requires i <= |s|
    decreases |s| - i
  {
    if i == |s| then []
    else
      match MatchFrame(s, i)
      case Some((name, e)) => [name] + ScanFrames(s, e)
      case None => ScanFrames(s, i + 1)
  }

  /** `extract_filenames_from_error`: the set of file names captured by the frame pattern. */
  function ExtractFilenames(errorText: string): set<string> {
    set name | name in ScanFrames(errorText, 0)
  }

  lemma {:induction false} ScanFramesNames(s: string, i: nat)
    requires i <= |s|
    ensures forall name :: name in ScanFrames(s, i) ==> EndsWith(name, JavaExt) && |name| > 5
    decreases |s| - i
  {
    if i < |s| {
      var m := MatchFrame(s, i);
      if m.Some? {
        var e := m.value.1;
        ScanFramesNames(s, e);
        assert ScanFrames(s, i) == [m.value.0] + ScanFrames(s, e);
      } else {
        ScanFramesNames(s, i + 1);
        assert ScanFrames(s, i) == ScanFrames(s, i + 1);
      }
    }
  }

  /** Every name taken from an error log is a `.java` file name. */
  lemma ExtractedNamesAreJava(errorText: string)
    ensures forall name :: name in ExtractFilenames(errorText) ==> EndsWith(name, JavaExt)
  {
    ScanFramesNames(errorText, 0);
  }

  // ---------------------------------------------------------------------------------------------
  // The fan-out over the import/call graph

  /** A symbol names the file `symbol + ".java"` unless it already ends in `.java`. */
  function NeighborFile(symbol: string): string {
    if EndsWith(symbol, JavaExt) then symbol else symbol + JavaExt
  }

  /** The neighbour file always ends in `.java`, and a symbol that already does is kept; so
      mapping a symbol twice is mapping it once. */
  lemma NeighborFileJava(symbol: string)
    ensures EndsWith(NeighborFile(symbol), JavaExt)
    ensures EndsWith(symbol, JavaExt) ==> NeighborFile(symbol) == symbol
    ensures NeighborFile(NeighborFile(symbol)) == NeighborFile(symbol)
  {
    var r := NeighborFile(symbol);
    if !EndsWith(symbol, JavaExt) {
      assert r[|r| - 5..] == JavaExt;
    }
  }

  /** The files named by the first `j` symbols of `links`. */
  ghost function Named(links: seq<string>, j: nat): set<string>
    requires j <= |links|
  {
    if j == 0 then {} else Named(links, j - 1) + {NeighborFile(links[j - 1])}
  }

  lemma NamedStep(links: seq<string>, j: nat, keys: set<string>, expanded: set<string>)
    requires j < |links|
    ensures var n := NeighborFile(links[j]);
      Named(links, j + 1) * keys - expanded
      == (Named(links, j) * keys - expanded) + (if n in keys && n !in expanded then {n} else {})
  {
  }

  /** One turn of the loop of `AddNeighbors`: the neighbour of the `j`-th symbol is added exactly
      when it is indexed and not yet expanded. */
  lemma AddNeighborStep(links: seq<string>, j: nat, keys: set<string>, expanded: set<string>,
                        next0: set<string>, prev: set<string>, next: set<string>)
    requires j < |links| && prev == next0 + (Named(links, j) * keys - expanded)
    requires var n := NeighborFile(links[j]);
      next == if n in keys && n !in expanded then prev + {n} else prev
    ensures next == next0 + (Named(links, j + 1) * keys - expanded)
  {
    NamedStep(links, j, keys, expanded);
  }

  /** The indexed files that file `f` imports or calls. */
  ghost function Out(f: string, index: map<string, FileEntry>): set<string> {
    if f in index then
      var links := index[f].imports + index[f].calls;
      Named(links, |links|) * index.Keys
    else {}
  }

  /** The indexed neighbours of a set of files. */
  ghost function Neighbors(files: set<string>, index: map<string, FileEntry>): set<string> {
    set f, g | f in files && g in Out(f, index) :: g
  }

  /** The files reachable from `seeds` in at most `k` steps: the reference definition of the fan-out. */
  ghost function Within(seeds: set<string>, index: map<string, FileEntry>, k: nat): set<string> {
    if k == 0 then seeds
    else
      var w := Within(seeds, index, k - 1);
      w + Neighbors(w, index)
  }

  /** The `(expanded, frontier)` pair after `k` rounds of `fan_out` as written: each round adds
      the neighbours of the frontier that are not yet expanded, and they become the new frontier. */
  ghost function Rounds(seeds: set<string>, index: map<string, FileEntry>, k: nat): (set<string>, set<string>) {
    if k == 0 then (seeds, seeds)
    else
      var prev := Rounds(seeds, index, k - 1);
      var next := Neighbors(prev.1, index) - prev.0;
      (prev.0 + next, next)
  }

  lemma NeighborsUnion(a: set<string>, b: set<string>, index: map<string, FileEntry>)
    ensures Neighbors(a + b, index) == Neighbors(a, index) + Neighbors(b, index)
  {
  }

  lemma NeighborsAddOne(a: set<string>, f: string, index: map<string, FileEntry>)
    ensures Neighbors(a + {f}, index) == Neighbors(a, index) + Out(f, index)
  {
    NeighborsUnion(a, {f}, index);
  }

  /** Expanding only the frontier reaches the same files as expanding everything: the files
      expanded before the frontier have all their neighbours expanded already. */
  lemma {:induction false} RoundsWithin(seeds: set<string>, index: map<string, FileEntry>, k: nat)
    ensures var r := Rounds(seeds, index, k);
      && r.0 == Within(seeds, index, k)
      && r.1 <= r.0
      && Neighbors(r.0 - r.1, index) <= r.0
  {
    if k > 0 {
      RoundsWithin(seeds, index, k - 1);
      var prev := Rounds(seeds, index, k - 1);
      var e, f := prev.0, prev.1;
      var nf := Neighbors(f, index) - e;
      assert e == (e - f) + f;
      NeighborsUnion(e - f, f, index);
      assert (e + nf) - nf == e;
    }
  }

  /** The inner loop of `fan_out` over one file's imports and calls: add each named file that is
      indexed and not yet expanded. */
  method AddNeighbors(links: seq<string>, index: map<string, FileEntry>, expanded: set<string>, next0: set<string>)
    returns (next: set<string>)
    ensures next == next0 + (Named(links, |links|) * index.Keys - expanded)
  {
    next := next0;
    var j := 0;
    while j < |links|
      invariant 0 <= j <= |links|
      invariant next == next0 + (Named(links, j) * index.Keys - expanded)
    {
      var neighbor := NeighborFile(links[j]);
      ghost var prev := next;
      if neighbor in index && neighbor !in expanded {
        next := next + {neighbor};
      }
      AddNeighborStep(links, j, index.Keys, expanded, next0, prev, next);
      j := j + 1;
    }
  }

  lemma FrontierStep(frontier: set<string>, todo: set<string>, f: string, index: map<string, FileEntry>, expanded: set<string>)
    requires f in todo && todo <= frontier
    ensures Neighbors(frontier - (todo - {f}), index) - expanded
      == (Neighbors(frontier - todo, index) - expanded) + (Out(f, index) - expanded)
  {
    NeighborsAddOne(frontier - todo, f, index);
    assert frontier - (todo - {f}) == (frontier - todo) + {f};
  }

  /** One turn of the loop of `NextFrontier`: the neighbours of `f` join those found so far. */
  lemma NextFrontierStep(frontier: set<string>, todo: set<string>, f: string, index: map<string, FileEntry>,
                         expanded: set<string>, prev: set<string>, next: set<string>)
    requires f in todo && todo <= frontier
    requires prev == Neighbors(frontier - todo, index) - expanded
    requires f in index ==> var links := index[f].imports + index[f].calls;
      next == prev + (Named(links, |links|) * index.Keys - expanded)
    requires f !in index ==> next == prev
    ensures next == Neighbors(frontier - (todo - {f}), index) - expanded
  {
    FrontierStep(frontier, todo, f, index, expanded);
  }

  /** One round of `fan_out`: the indexed neighbours of the frontier that are not yet expanded. */
  method NextFrontier(frontier: set<string>, index: map<string, FileEntry>, expanded: set<string>)
    returns (next: set<string>)
    ensures next == Neighbors(frontier, index) - expanded
  {
    next := {};
    var todo := frontier;
    while todo != {}
      invariant todo <= frontier
      invariant next == Neighbors(frontier - todo, index) - expanded
      decreases |todo|
    {
      var f :| f in todo;
      ghost var prev := next;
      if f in index {
        next := AddNeighbors(index[f].imports + index[f].calls, index, expanded, next);
      }
      NextFrontierStep(frontier, todo, f, index, expanded, prev, next);
      todo := todo - {f};
    }
    assert frontier - {} == frontier;
  }

  /** `fan_out`: `depth` rounds of breadth-first expansion from the seed names. */
  method FanOut(seeds: set<string>, index: map<string, FileEntry>, depth: int) returns (expanded: set<string>)
    ensures expanded == Within(seeds, index, if depth < 0 then 0 else depth)
  {
    var rounds := if depth < 0 then 0 else depth;
    expanded := seeds;
    var frontier := seeds;
    var round := 0;
    while round < rounds
      invariant 0 <= round <= rounds
      invariant (expanded, frontier) == Rounds(seeds, index, round)
    {
      frontier := NextFrontier(frontier, index, expanded);
      expanded := expanded + frontier;
      round := round + 1;
    }
    RoundsWithin(seeds, index, rounds);
  }

  /** Depth 0 (or less) returns exactly the seeds. */
  lemma WithinZero(seeds: set<string>, index: map<string, FileEntry>)
    ensures Within(seeds, index, 0) == seeds
  {
  }

  /** The seeds are always kept, whether or not they are indexed. */
  lemma {:induction false} WithinSeeds(seeds: set<string>, index: map<string, FileEntry>, k: nat)
    ensures seeds <= Within(seeds, index, k)
  {
    if k > 0 {
      WithinSeeds(seeds, index, k - 1);
    }
  }

  /** Every name added beyond the seeds is a key of the index. */
  lemma {:induction false} WithinAddsIndexed(seeds: set<string>, index: map<string, FileEntry>, k: nat)
    ensures Within(seeds, index, k) - seeds <= index.Keys
  {
    if k > 0 {
      WithinAddsIndexed(seeds, index, k - 1);
    }
  }

  /** A larger depth never yields fewer names. */
  lemma {:induction false} WithinMonotone(seeds: set<string>, index: map<string, FileEntry>, k1: nat, k2: nat)
    requires k1 <= k2
    ensures Within(seeds, index, k1) <= Within(seeds, index, k2)
    decreases k2
  {
    if k1 < k2 {
      WithinMonotone(seeds, index, k1, k2 - 1);
    }
  }

  // ---------------------------------------------------------------------------------------------
  // Relevant files and the code context

  /** `get_relevant_files` with depth 2: the whole index when the log names no file, otherwise the
      index restricted to the fan-out of the named files. */
  method GetRelevantFiles(errorText: string, index: Listing) returns (r: Listing)
    requires index.Valid()
    ensures r.Valid()
    ensures ExtractFilenames(errorText) == {} ==> r == index
    ensures ExtractFilenames(errorText) != {} ==>
      r == Restrict(index, Within(ExtractFilenames(errorText), index.entries, 2))
  {
    var initial := ExtractFilenames(errorText);
    if initial == {} {
      return index;
    }
    var selected := FanOut(initial, index.entries, 2);
    r := Restrict(index, selected);
  }

  /** A selection always comes from the index: same entries, keys within the index. */
  lemma RelevantFilesFromIndex(index: Listing, names: set<string>)
    requires index.Valid()
    ensures var r := Restrict(index, names);
      && r.entries.Keys == index.entries.Keys * names
      && forall k :: k in r.entries ==> r.entries[k] == index.entries[k]
  {
  }

  /** One file's part of the code context. */
  function Section(name: string, content: string): string {
    SectionHead + name + SectionTail + content
  }

  /** `extract_code_context`: the sections of the files, in the listing's order. */
  function CodeContext(order: seq<string>, entries: map<string, FileEntry>): string
    requires AllIn(order, entries)
    decreases |order|
  {
    if order == [] then ""
    else
      var n := |order| - 1;
      CodeContext(order[..n], entries) + Section(order[n], entries[order[n]].content)
  }

  /** The context is the concatenation of the parts' contexts. */
  lemma {:induction false} CodeContextAppend(a: seq<string>, b: seq<string>, entries: map<string, FileEntry>)
    requires AllIn(a, entries) && AllIn(b, entries)
    ensures AllIn(a + b, entries)
    ensures CodeContext(a + b, entries) == CodeContext(a, entries) + CodeContext(b, entries)
    decreases |b|
  {
    if b == [] {
      assert a + b == a;
    } else {
      var n := |b| - 1;
      assert (a + b)[..|a + b| - 1] == a + b[..n];
      CodeContextAppend(a, b[..n], entries);
    }
  }

  /** Each file of the listing contributes its section, at its place in the order. */
  lemma CodeContextHasSection(order: seq<string>, entries: map<string, FileEntry>, i: nat)
    requires AllIn(order, entries) && i < |order|
    ensures CodeContext(order, entries)
      == CodeContext(order[..i], entries) + Section(order[i], entries[order[i]].content)
         + CodeContext(order[i + 1..], entries)
  {
    assert order == order[..i + 1] + order[i + 1..];
    assert order[..i + 1][..i] == order[..i];
    CodeContextAppend(order[..i + 1], order[i + 1..], entries);
  }
}
