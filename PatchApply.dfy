/**
 * `apply_fixes_to_code` in nodes/fixer_node.py: the line-driven parser that reads the repair
 * model's reply (a `FILENAME:` marker, an opening fence, code lines, a closing fence) and the
 * application of each block to the file that its marker names.
 *
 * The parser is specified by the function `Parse`, which lists the (file name, code) blocks of a
 * reply; application is specified by the fold `ApplyBlocks`. The method `ApplyFixes` is the loop
 * of the source, proved to produce exactly what the fold describes.
 */
module PatchApply {
  import opened Strings
  import opened FileIndex

  // ---------------------------------------------------------------------------------------------
  // Parsing the reply

  /** One code block of the reply, with the file name that was pending when it opened. */
  datatype Block = Block(name: string, code: string)

  /** The texts the parser looks for. */
  const MarkerPrefix: string := "FILENAME:"
  const Backticks: string := "```"
  const Newline: string := "\n"

  /** A stripped line announces a file when it starts with `FILENAME:` or ends with `.java`. */
  predicate IsMarker(line: string) {
    StartsWith(line, MarkerPrefix) || EndsWith(line, JavaExt)
  }

  /** The file a marker names: the text after its first ':', stripped, or the whole line. */
  function MarkerName(line: string): string {
    if ':' in line then Strip(line[Find(line, ':') + 1..]) else line
  }

  /** A line opens or closes a code block when, stripped, it starts with three backticks. */
  predicate IsFence(line: string) {
    StartsWith(Strip(line), Backticks)
  }

  /** The index of the first fence at or after `j`, or the number of lines. */
  function CodeEnd(lines: seq<string>, j: nat): (e: nat)
    requires j <= |lines|
    ensures j <= e <= |lines|
    ensures e < |lines| ==> IsFence(lines[e])
    decreases |lines| - j
  {
    if j == |lines| || IsFence(lines[j]) then j else CodeEnd(lines, j + 1)
  }

  /** How the outer loop reads a line: a marker naming a file, a fence, or anything else. */
  datatype LineKind = Marker(name: string) | Fence | Plain

  function Kind(line: string): LineKind {
    var l := Strip(line);
    if IsMarker(l) then Marker(MarkerName(l))
    else if StartsWith(l, Backticks) then Fence
    else Plain
  }

  /** The blocks the parser finds from line `i` on, with `pending` the file name announced last.
      A marker replaces the pending name, a fence with no pending name is skipped, and a block
      runs to the next fence (which it consumes) and clears the pending name. */
  function Parse(lines: seq<string>, i: nat, pending: Option<string>): seq<Block>
    decreases |lines| - i
  {
    if i >= |lines| then []
    else
      match Kind(lines[i])
      case Marker(name) => Parse(lines, i + 1, Some(name))
      case Fence =>
        if pending.None? then Parse(lines, i + 1, None)
        else
          var e := CodeEnd(lines, i + 1);
          [Block(pending.value, Join(Newline, lines[i + 1..e]))] + Parse(lines, e + 1, None)
      case Plain => Parse(lines, i + 1, pending)
  }

  /** The blocks of a whole reply. */
  function ReplyBlocks(reply: string): seq<Block> {
    Parse(Split(reply, '\n'), 0, None)
  }

  /** The last marker before a fence wins: once a marker is read, what was pending is forgotten. */
  lemma ParseMarkerOverrides(lines: seq<string>, i: nat, p1: Option<string>, p2: Option<string>)
    requires i < |lines| && Kind(lines[i]).Marker?
    ensures Parse(lines, i, p1) == Parse(lines, i, p2)
  {
  }

  /** A fence with no pending file name is skipped on its own. */
  lemma ParseSkipsUnnamedFence(lines: seq<string>, i: nat)
    requires i < |lines| && Kind(lines[i]).Fence?
    ensures Parse(lines, i, None) == Parse(lines, i + 1, None)
  {
  }

  // ---------------------------------------------------------------------------------------------
  // The reply format the prompt asks for, and the parser reading it back

  /** The marker line for a file name. */
  function MarkerLine(name: string): string {
    "FILENAME: " + name
  }

  /** A marker line, an opening fence, the code lines and a closing fence. */
  function FencedLines(name: string, code: seq<string>): seq<string> {
    [MarkerLine(name), "```java"] + code + [Backticks]
  }

  /** The lines of one block as the prompt asks for them. */
  function BlockLines(b: Block): seq<string> {
    FencedLines(b.name, Split(b.code, '\n'))
  }

  function FormatLines(blocks: seq<Block>): seq<string>
    decreases |blocks|
  {
    if blocks == [] then [] else BlockLines(blocks[0]) + FormatLines(blocks[1..])
  }

  /** A reply in the requested format. */
  function FormatReply(blocks: seq<Block>): string {
    Join(Newline, FormatLines(blocks))
  }

  /** A block the format can carry: a stripped one-line file name, and no code line that the
      parser would read as a fence. */
  predicate WellFormed(b: Block) {
    b.name != "" && IsStripped(b.name) && '\n' !in b.name
    && var code := Split(b.code, '\n');
       forall t :: 0 <= t < |code| ==> !IsFence(code[t])
  }

  /** A marker line is already stripped. */
  lemma MarkerLineStripped(name: string)
    requires name != "" && IsStripped(name)
    ensures Strip(MarkerLine(name)) == MarkerLine(name)
  {
    var s := MarkerLine(name);
    assert s[0] == 'F' && s[|s| - 1] == name[|name| - 1];
    StripStripped(s);
  }

  /** A marker line is read as a marker for the name it carries. */
  lemma MarkerLineName(name: string)
    requires IsStripped(name)
    ensures IsMarker(MarkerLine(name)) && MarkerName(MarkerLine(name)) == name
  {
    var s := MarkerLine(name);
    assert s[..9] == "FILENAME:";
    assert s[8] == ':';
    FindAfter("FILENAME", ": " + name, ':');
    assert s == "FILENAME" + (": " + name);
    assert s[9..] == [' '] + name;
    StripSkipsLeadingSpace(' ', name);
    StripStripped(name);
  }

  /** The opening fence the format uses is a fence and no marker. */
  lemma OpeningFence()
    ensures Strip("```java") == "```java" && !IsMarker("```java") && StartsWith("```java", Backticks)
  {
    var s := "```java";
    assert !IsSpace(s[0]) && !IsSpace(s[6]);
    StripStripped(s);
    assert s[2..][0] == '`';
  }

  lemma ClosingFence()
    ensures IsFence(Backticks)
  {
    var s := Backticks;
    assert !IsSpace(s[0]) && !IsSpace(s[2]);
    StripStripped(s);
  }

  /** No fence lies between `j` and the end of the code block. */
  lemma {:induction false} CodeEndNoFence(lines: seq<string>, j: nat, t: nat)
    requires j <= |lines| && j <= t < CodeEnd(lines, j)
    ensures !IsFence(lines[t])
    decreases t - j
  {
    if j < t {
      CodeEndNoFence(lines, j + 1, t);
    }
  }

  lemma {:induction false} CodeEndAt(lines: seq<string>, j: nat, e: nat)
    requires j <= e < |lines| && IsFence(lines[e])
    requires forall t :: j <= t < e ==> !IsFence(lines[t])
    ensures CodeEnd(lines, j) == e
    decreases e - j
  {
    if j < e {
      CodeEndAt(lines, j + 1, e);
    }
  }

  /** The parser reads a suffix the same way wherever it sits. */
  lemma {:induction false} CodeEndShift(pre: seq<string>, rest: seq<string>, j: nat)
    requires j <= |rest|
    ensures CodeEnd(pre + rest, |pre| + j) == |pre| + CodeEnd(rest, j)
    decreases |rest| - j
  {
    if j < |rest| {
      assert (pre + rest)[|pre| + j] == rest[j];
      if !IsFence(rest[j]) {
        CodeEndShift(pre, rest, j + 1);
      }
    }
  }

  /** One step of the parser, by the kind of the line it reads. */
  lemma ParseMarkerStep(lines: seq<string>, i: nat, pending: Option<string>, name: string)
    requires i < |lines| && Kind(lines[i]) == Marker(name)
    ensures Parse(lines, i, pending) == Parse(lines, i + 1, Some(name))
  {
  }

  lemma ParsePlainStep(lines: seq<string>, i: nat, pending: Option<string>)
    requires i < |lines| && Kind(lines[i]) == Plain
    ensures Parse(lines, i, pending) == Parse(lines, i + 1, pending)
  {
  }

  lemma ParseFenceStep(lines: seq<string>, i: nat, name: string, body: seq<string>, e: nat)
    requires i < |lines| && Kind(lines[i]) == Fence
    requires e == CodeEnd(lines, i + 1) && lines[i + 1..e] == body
    ensures Parse(lines, i, Some(name)) == [Block(name, Join(Newline, body))] + Parse(lines, e + 1, None)
  {
  }

  /** A slice of the suffix, read where the suffix sits. */
  lemma SliceOfSuffix(pre: seq<string>, rest: seq<string>, a: nat, b: nat, ka: nat, kb: nat)
    requires a <= b <= |rest| && ka == |pre| + a && kb == |pre| + b
    ensures (pre + rest)[ka..kb] == rest[a..b]
  {
    var s := (pre + rest)[ka..kb];
    assert |s| == b - a;
    forall j | 0 <= j < b - a ensures s[j] == rest[a + j] {
      assert s[j] == (pre + rest)[ka + j];
    }
  }

  /** Two fences that open the same code lines, followed by the same blocks, give the same blocks. */
  lemma ParseFenceShift(lines: seq<string>, rest: seq<string>, k: nat, i: nat, name: string, f: nat, e: nat)
    requires k < |lines| && i < |rest| && Kind(lines[k]) == Fence && Kind(rest[i]) == Fence
    requires f == CodeEnd(lines, k + 1) && e == CodeEnd(rest, i + 1) && lines[k + 1..f] == rest[i + 1..e]
    requires Parse(lines, f + 1, None) == Parse(rest, e + 1, None)
    ensures Parse(lines, k, Some(name)) == Parse(rest, i, Some(name))
  {
    var body := rest[i + 1..e];
    ParseFenceStep(lines, k, name, body, f);
    ParseFenceStep(rest, i, name, body, e);
  }

  /** The parser reads a suffix the same way wherever it sits; `k` is where `rest[i]` stands in
      `pre + rest`. */
  lemma {:induction false} ParseShift(pre: seq<string>, rest: seq<string>, i: nat, k: nat, pending: Option<string>)
    requires k == |pre| + i
    ensures Parse(pre + rest, k, pending) == Parse(rest, i, pending)
    decreases |rest| - i
  {
    var lines := pre + rest;
    if i < |rest| {
      assert lines[k] == rest[i];
      var kd := Kind(rest[i]);
      match kd
      case Marker(name) =>
        ParseMarkerStep(lines, k, pending, name);
        ParseMarkerStep(rest, i, pending, name);
        ParseShift(pre, rest, i + 1, k + 1, Some(name));
        assert Parse(lines, k, pending) == Parse(rest, i, pending);
      case Fence =>
        if pending.None? {
          ParseSkipsUnnamedFence(lines, k);
          ParseSkipsUnnamedFence(rest, i);
          ParseShift(pre, rest, i + 1, k + 1, None);
          assert Parse(lines, k, pending) == Parse(rest, i, pending);
        } else {
          CodeEndShift(pre, rest, i + 1);
          var e := CodeEnd(rest, i + 1);
          var f := |pre| + e;
          SliceOfSuffix(pre, rest, i + 1, e, k + 1, f);
          ParseShift(pre, rest, e + 1, f + 1, None);
          ParseFenceShift(lines, rest, k, i, pending.value, f, e);
        }
      case Plain =>
        ParsePlainStep(lines, k, pending);
        ParsePlainStep(rest, i, pending);
        ParseShift(pre, rest, i + 1, k + 1, pending);
        assert Parse(lines, k, pending) == Parse(rest, i, pending);
    }
  }

  lemma KindMarkerLine(name: string)
    requires name != "" && IsStripped(name)
    ensures Kind(MarkerLine(name)) == Marker(name)
  {
    MarkerLineStripped(name);
    MarkerLineName(name);
  }

  lemma KindOpeningFence()
    ensures Kind("```java") == Fence
  {
    OpeningFence();
  }

  /** Code lines without a fence, followed by a closing fence, end where that fence stands. */
  lemma FencedCodeEnd(lines: seq<string>, code: seq<string>)
    requires 2 + |code| < |lines| && lines[2 + |code|] == Backticks
    requires lines[2..2 + |code|] == code
    requires forall t :: 0 <= t < |code| ==> !IsFence(code[t])
    ensures CodeEnd(lines, 2) == 2 + |code|
  {
    ClosingFence();
    forall t | 2 <= t < 2 + |code| ensures !IsFence(lines[t]) {
      assert lines[t] == lines[2..2 + |code|][t - 2];
    }
    CodeEndAt(lines, 2, 2 + |code|);
  }

  /** A marker line, an opening fence and code up to a closing fence make one block. */
  lemma ParseOneBlock(lines: seq<string>, name: string, code: seq<string>)
    requires 3 + |code| <= |lines|
    requires Kind(lines[0]) == Marker(name) && Kind(lines[1]) == Fence
    requires CodeEnd(lines, 2) == 2 + |code| && lines[2..2 + |code|] == code
    ensures Parse(lines, 0, None) == [Block(name, Join(Newline, code))] + Parse(lines, 3 + |code|, None)
  {
    assert Parse(lines, 0, None) == Parse(lines, 1, Some(name));
  }

  /** `ParseShift` at the position where the suffix starts. */
  lemma ParseShiftAt(head: seq<string>, rest: seq<string>, lines: seq<string>, k: nat)
    requires lines == head + rest && k == |head|
    ensures Parse(lines, k, None) == Parse(rest, 0, None)
  {
    ParseShift(head, rest, 0, k, None);
  }

  /** Where the parts of a fenced block stand when more lines follow it. */
  lemma FencedLinesAt(name: string, code: seq<string>, rest: seq<string>)
    ensures var lines := FencedLines(name, code) + rest;
      |FencedLines(name, code)| == 3 + |code| && 3 + |code| <= |lines|
      && lines[0] == MarkerLine(name) && lines[1] == "```java"
      && lines[2..2 + |code|] == code && lines[2 + |code|] == Backticks
  {
    var head := FencedLines(name, code);
    var lines := head + rest;
    var m := |code|;
    assert head[2..2 + m] == code;
    assert lines[..|head|] == head;
    assert lines[2..2 + m] == head[2..2 + m] by {
      assert lines[..|head|][2..2 + m] == lines[2..2 + m];
    }
    assert lines[2 + m] == head[2 + m];
  }

  /** How the parser sees a fenced block at the start of `lines`. */
  lemma FencedHead(name: string, code: seq<string>, rest: seq<string>)
    requires name != "" && IsStripped(name)
    requires forall t :: 0 <= t < |code| ==> !IsFence(code[t])
    ensures var lines := FencedLines(name, code) + rest;
      3 + |code| <= |lines|
      && Kind(lines[0]) == Marker(name) && Kind(lines[1]) == Fence
      && CodeEnd(lines, 2) == 2 + |code| && lines[2..2 + |code|] == code
  {
    var lines := FencedLines(name, code) + rest;
    FencedLinesAt(name, code, rest);
    KindMarkerLine(name);
    KindOpeningFence();
    FencedCodeEnd(lines, code);
  }

  /** A fenced block is read as one block, and the parser goes on after it. */
  lemma ParseFenced(name: string, code: seq<string>, rest: seq<string>)
    requires name != "" && IsStripped(name)
    requires forall t :: 0 <= t < |code| ==> !IsFence(code[t])
    ensures Parse(FencedLines(name, code) + rest, 0, None) == [Block(name, Join(Newline, code))] + Parse(rest, 0, None)
  {
    var head := FencedLines(name, code);
    var lines := head + rest;
    FencedHead(name, code, rest);
    FencedLinesAt(name, code, rest);
    ParseOneBlock(lines, name, code);
    ParseShiftAt(head, rest, lines, 3 + |code|);
  }

  /** Joining the lines of a split gives the text back. */
  lemma JoinLines(s: string)
    ensures Join(Newline, Split(s, '\n')) == s
  {
    JoinSplit(s, '\n');
    assert ['\n'] == Newline;
  }

  lemma ParseBlockLines(b: Block, rest: seq<string>)
    requires WellFormed(b)
    ensures Parse(BlockLines(b) + rest, 0, None) == [b] + Parse(rest, 0, None)
  {
    ParseFenced(b.name, Split(b.code, '\n'), rest);
    JoinLines(b.code);
  }

  lemma {:induction false} ParseFormatLines(blocks: seq<Block>)
    requires forall t :: 0 <= t < |blocks| ==> WellFormed(blocks[t])
    ensures Parse(FormatLines(blocks), 0, None) == blocks
    decreases |blocks|
  {
    if blocks != [] {
      ParseBlockLines(blocks[0], FormatLines(blocks[1..]));
      ParseFormatLines(blocks[1..]);
    }
  }

  /** No line of a block holds a newline. */
  lemma BlockLinesOneLine(b: Block)
    requires WellFormed(b)
    ensures forall t :: 0 <= t < |BlockLines(b)| ==> '\n' !in BlockLines(b)[t]
  {
    var head := BlockLines(b);
    var code := Split(b.code, '\n');
    SplitParts(b.code, '\n');
    assert '\n' !in MarkerLine(b.name);
    forall t | 0 <= t < |head| ensures '\n' !in head[t] {
      if 2 <= t < 2 + |code| {
        assert head[t] == code[t - 2];
      }
    }
  }

  lemma {:induction false} FormatLinesOneLine(blocks: seq<Block>)
    requires forall t :: 0 <= t < |blocks| ==> WellFormed(blocks[t])
    ensures forall t :: 0 <= t < |FormatLines(blocks)| ==> '\n' !in FormatLines(blocks)[t]
    decreases |blocks|
  {
    if blocks != [] {
      FormatLinesOneLine(blocks[1..]);
      var head := BlockLines(blocks[0]);
      BlockLinesOneLine(blocks[0]);
      var tail := FormatLines(blocks[1..]);
      var lines := FormatLines(blocks);
      assert lines == head + tail;
      forall t | 0 <= t < |lines| ensures '\n' !in lines[t] {
        if t >= |head| {
          assert lines[t] == tail[t - |head|];
        } else {
          assert lines[t] == head[t];
        }
      }
    }
  }

  /** A reply written in the requested format is parsed back into exactly its blocks. */
  lemma FormatReplyRoundTrip(blocks: seq<Block>)
    requires forall t :: 0 <= t < |blocks| ==> WellFormed(blocks[t])
    ensures ReplyBlocks(FormatReply(blocks)) == blocks
  {
    var lines := FormatLines(blocks);
    if blocks == [] {
      assert Split("", '\n') == [""];
      assert Strip("") == "";
    } else {
      assert |lines| >= 1;
      FormatLinesOneLine(blocks);
      SplitJoin(lines, '\n');
      ParseFormatLines(blocks);
    }
  }

  // ---------------------------------------------------------------------------------------------
  // Matching and applying blocks

  /** Two file names denote the same file for the patcher: equal base names, ignoring case. */
  predicate SameFile(k: string, name: string) {
    Lower(Basename(k)) == Lower(Basename(name))
  }

  /** The position of the first key in `order` that matches `name`, or -1. */
  function MatchIndex(order: seq<string>, name: string): (j: int)
    ensures -1 <= j < |order|
    ensures j >= 0 ==> SameFile(order[j], name)
  {
    if order == [] then -1
    else if SameFile(order[0], name) then 0
    else
      var j := MatchIndex(order[1..], name);
      if j < 0 then -1 else j + 1
  }

  /** The match is the first one: no key before it matches, and none at all when there is none. */
  lemma {:induction false} MatchIndexFirst(order: seq<string>, name: string, t: int)
    requires 0 <= t < |order| && SameFile(order[t], name)
    ensures 0 <= MatchIndex(order, name) <= t
  {
    if t > 0 && !SameFile(order[0], name) {
      MatchIndexFirst(order[1..], name, t - 1);
    }
  }

  /** `next((k for k in source_files if ...), None)`. */
  function MatchKey(order: seq<string>, name: string): (r: Option<string>)
    ensures r.Some? ==> r.value in order && SameFile(r.value, name)
  {
    var j := MatchIndex(order, name);
    if j < 0 then None else Some(order[j])
  }

  /** The key a block patches: a matching key that is a non-empty string (`if matched_key:`). */
  function Target(source: Listing, b: Block): (r: Option<string>)
    ensures r.Some? ==> r.value in source.entries && r.value != "" && SameFile(r.value, b.name)
  {
    var m := MatchKey(source.order, b.name);
    if m.Some? && m.value != "" && m.value in source.entries then m else None
  }

  /** In a valid dictionary every listed key is indexed, so the guard of `Target` is exactly the
      source's `if matched_key:`. */
  lemma TargetIsMatchedKey(source: Listing, b: Block)
    requires source.Valid()
    ensures var m := MatchKey(source.order, b.name);
      Target(source, b) == if m.Some? && m.value != "" then m else None
  {
    var m := MatchKey(source.order, b.name);
    if m.Some? {
      KeyInOrder(source, m.value);
    }
  }

  /** The modification time and backup stamp the clock gives the `n`-th write. */
  datatype Tick = Tick(mtime: int, stamp: string)

  /** `create_backup`: the copy is made next to the file, named after the clock's stamp. */
  function BackupPath(path: string, stamp: string): string {
    path + ".backup_" + stamp
  }

  /** The index mapping and the file system as patching proceeds, with the number of writes. */
  datatype PatchState = PatchState(entries: map<string, FileEntry>, files: map<string, DiskFile>, writes: nat)

  /** The state a patch needs: every file it could target is indexed and on disk. */
  ghost predicate Ready(source: Listing, st: PatchState) {
    source.Valid()
    && source.entries.Keys <= st.entries.Keys
    && forall k :: k in source.entries ==> source.entries[k].path in st.files
  }

  /** One block: unmatched blocks change nothing; otherwise back the file up (content and mtime),
      overwrite it with the code and update the entry's content, mtime and checksum only. */
  function ApplyBlock(source: Listing, ex: Extractors, clock: nat -> Tick, st: PatchState, b: Block): (r: PatchState)
    requires Ready(source, st)
    ensures Ready(source, r)
    ensures r.entries.Keys == st.entries.Keys
  {
    var t := Target(source, b);
    if t.None? then st
    else
      var k := t.value;
      var path := source.entries[k].path;
      var tick := clock(st.writes);
      var backedUp := st.files[BackupPath(path, tick.stamp) := st.files[path]];
      var e := st.entries[k];
      PatchState(
        st.entries[k := e.(content := b.code, lastModified := tick.mtime, checksum := ex.md5(b.code))],
        backedUp[path := DiskFile(tick.mtime, b.code)],
        st.writes + 1)
  }

  /** A key listed in the order of a valid dictionary is one of its keys. */
  lemma KeyInOrder(source: Listing, k: string)
    requires source.Valid() && k in source.order
    ensures k in source.entries
  {
    ElemsIn(source.order);
  }

  /** The blocks applied one after the other. */
  function ApplyBlocks(source: Listing, ex: Extractors, clock: nat -> Tick, st: PatchState, blocks: seq<Block>): (r: PatchState)
    requires Ready(source, st)
    ensures Ready(source, r)
    ensures r.entries.Keys == st.entries.Keys
    decreases |blocks|
  {
    if blocks == [] then st
    else ApplyBlocks(source, ex, clock, ApplyBlock(source, ex, clock, st, blocks[0]), blocks[1..])
  }

  // ---------------------------------------------------------------------------------------------
  // What patching does to the index and the file system

  /** The files the source dictionary points at. */
  ghost function Paths(source: Listing): set<string> {
    set k | k in source.entries :: source.entries[k].path
  }

  /** The code of the last block that targets `k`, if any. */
  function LastCode(source: Listing, blocks: seq<Block>, k: string): Option<string>
    decreases |blocks|
  {
    if blocks == [] then None
    else
      var later := LastCode(source, blocks[1..], k);
      if later.Some? then later
      else if Target(source, blocks[0]) == Some(k) then Some(blocks[0].code)
      else None
  }

  /** The number of blocks that name a file of the source dictionary. */
  function Matched(source: Listing, blocks: seq<Block>): nat
    decreases |blocks|
  {
    if blocks == [] then 0
    else (if Target(source, blocks[0]).Some? then 1 else 0) + Matched(source, blocks[1..])
  }

  /** A matched block backs the old file up under the stamp of this write before overwriting it. */
  lemma ApplyBlockBacksUp(source: Listing, ex: Extractors, clock: nat -> Tick, st: PatchState, b: Block)
    requires Ready(source, st) && Target(source, b).Some?
    ensures var path := source.entries[Target(source, b).value].path;
      var r := ApplyBlock(source, ex, clock, st, b);
      var tick := clock(st.writes);
      r.files[BackupPath(path, tick.stamp)] == st.files[path]
      && r.files[path] == DiskFile(tick.mtime, b.code)
      && r.writes == st.writes + 1
  {
    var path := source.entries[Target(source, b).value].path;
    var stamp := clock(st.writes).stamp;
    assert |BackupPath(path, stamp)| > |path|;
  }

  /** Each entry keeps its path, class, imports and calls; its content and checksum are those of
      the last block that targets it, and an entry no block targets is left as it was. */
  lemma {:induction false} ApplyBlocksEntry(source: Listing, ex: Extractors, clock: nat -> Tick, st: PatchState, blocks: seq<Block>, k: string)
    requires Ready(source, st) && k in st.entries
    ensures var e := st.entries[k];
      var e' := ApplyBlocks(source, ex, clock, st, blocks).entries[k];
      var last := LastCode(source, blocks, k);
      e'.path == e.path && e'.className == e.className && e'.imports == e.imports && e'.calls == e.calls
      && (last.None? ==> e' == e)
      && (last.Some? ==> e'.content == last.value && e'.checksum == ex.md5(last.value))
    decreases |blocks|
  {
    if blocks != [] {
      var next := ApplyBlock(source, ex, clock, st, blocks[0]);
      ApplyBlocksEntry(source, ex, clock, next, blocks[1..], k);
    }
  }

  /** Every matched block is one write. */
  lemma {:induction false} ApplyBlocksWrites(source: Listing, ex: Extractors, clock: nat -> Tick, st: PatchState, blocks: seq<Block>)
    requires Ready(source, st)
    ensures ApplyBlocks(source, ex, clock, st, blocks).writes == st.writes + Matched(source, blocks)
    decreases |blocks|
  {
    if blocks != [] {
      ApplyBlocksWrites(source, ex, clock, ApplyBlock(source, ex, clock, st, blocks[0]), blocks[1..]);
    }
  }

  /** A path that is neither a file of the source dictionary nor a backup of one under a stamp of
      the clock from this write on is neither created, changed nor removed. */
  lemma {:induction false} ApplyBlocksUntouched(source: Listing, ex: Extractors, clock: nat -> Tick, st: PatchState, blocks: seq<Block>, p: string)
    requires Ready(source, st) && p !in Paths(source)
    requires forall q, j: nat :: q in Paths(source) && st.writes <= j ==> p != BackupPath(q, clock(j).stamp)
    ensures var r := ApplyBlocks(source, ex, clock, st, blocks);
      (p in r.files <==> p in st.files) && (p in st.files ==> r.files[p] == st.files[p])
    decreases |blocks|
  {
    if blocks != [] {
      var next := ApplyBlock(source, ex, clock, st, blocks[0]);
      var t := Target(source, blocks[0]);
      if t.Some? {
        var path := source.entries[t.value].path;
        assert path in Paths(source);
        assert p != BackupPath(path, clock(st.writes).stamp);
      }
      ApplyBlocksUntouched(source, ex, clock, next, blocks[1..], p);
    }
  }

  // ---------------------------------------------------------------------------------------------
  // The loop of `apply_fixes_to_code`

  /** `line.startswith("```java") or line.startswith(Backticks)` is `line.startswith(Backticks)`. */
  lemma JavaFenceIsFence(line: string)
    ensures StartsWith(line, "```java") || StartsWith(line, Backticks) <==> StartsWith(line, Backticks)
  {
    if StartsWith(line, "```java") {
      assert line[..3] == line[..7][..3];
    }
  }

  /** Read the lines inside a code block: from `i` up to the next fence or the end. */
  method ReadCode(lines: seq<string>, from: nat) returns (code: seq<string>, i: nat)
    requires from <= |lines|
    ensures i == CodeEnd(lines, from) && code == lines[from..i]
  {
    i := from;
    code := [];
    while i < |lines| && !StartsWith(Strip(lines[i]), Backticks)
      invariant from <= i <= |lines|
      invariant code == lines[from..i]
      invariant CodeEnd(lines, i) == CodeEnd(lines, from)
      decreases |lines| - i
    {
      code := code + [lines[i]];
      i := i + 1;
    }
  }

  lemma ApplyBlocksCons(source: Listing, ex: Extractors, clock: nat -> Tick, st: PatchState, b: Block, rest: seq<Block>)
    requires Ready(source, st)
    ensures ApplyBlocks(source, ex, clock, st, [b] + rest) == ApplyBlocks(source, ex, clock, ApplyBlock(source, ex, clock, st, b), rest)
  {
    assert ([b] + rest)[1..] == rest;
  }

  /** A block whose file name matches a key of `source`: back the file up, overwrite it and update
      its entry; any other block changes nothing. */
  method WriteBlock(b: Block, source: Listing, index: FileIndex, disk: Disk, ex: Extractors, clock: nat -> Tick, writes0: nat)
    returns (writes: nat)
    requires Ready(source, PatchState(index.entries, disk.files, writes0))
    modifies index, disk
    ensures index.keys == old(index.keys)
    ensures PatchState(index.entries, disk.files, writes)
      == ApplyBlock(source, ex, clock, PatchState(old(index.entries), old(disk.files), writes0), b)
  {
    ghost var r := ApplyBlock(source, ex, clock, PatchState(index.entries, disk.files, writes0), b);
    var matched := MatchKey(source.order, b.name);
    TargetIsMatchedKey(source, b);
    writes := writes0;
    if matched.Some? && matched.value != "" {
      var k := matched.value;
      assert Target(source, b) == Some(k);
      var path := source.entries[k].path;
      var tick := clock(writes);
      disk.files := disk.files[BackupPath(path, tick.stamp) := disk.files[path]];
      disk.files := disk.files[path := DiskFile(tick.mtime, b.code)];
      var entry := index.entries[k];
      index.entries := index.entries[k := entry.(content := b.code, lastModified := tick.mtime, checksum := ex.md5(b.code))];
      writes := writes + 1;
      assert disk.files == r.files;
      assert index.entries == r.entries;
    } else {
      assert Target(source, b).None?;
    }
  }

  /** A fence with a pending file name: read the code up to the next fence and write the block. */
  method PatchBlock(lines: seq<string>, i: nat, name: string, source: Listing, index: FileIndex, disk: Disk,
                    ex: Extractors, clock: nat -> Tick, writes0: nat)
    returns (e: nat, writes: nat)
    requires i < |lines| && Ready(source, PatchState(index.entries, disk.files, writes0))
    modifies index, disk
    ensures index.keys == old(index.keys)
    ensures e == CodeEnd(lines, i + 1)
    ensures PatchState(index.entries, disk.files, writes)
      == ApplyBlock(source, ex, clock, PatchState(old(index.entries), old(disk.files), writes0), Block(name, Join(Newline, lines[i + 1..e])))
  {
    var code;
    code, e := ReadCode(lines, i + 1);
    writes := WriteBlock(Block(name, Join(Newline, code)), source, index, disk, ex, clock, writes0);
  }

  /** `apply_fixes_to_code(reply, source_files, file_index)`: walk the reply's lines, and for each
      code block whose file name matches a key of `source` back the file up, overwrite it and
      update that key's entry in `index`. The result is the number of files written. */
  method ApplyFixes(reply: string, source: Listing, index: FileIndex, disk: Disk, ex: Extractors, clock: nat -> Tick)
    returns (writes: nat)
    requires index.Valid() && Ready(source, PatchState(index.entries, disk.files, 0))
    modifies index, disk
    ensures index.Valid() && index.keys == old(index.keys)
    ensures var r := ApplyBlocks(source, ex, clock, PatchState(old(index.entries), old(disk.files), 0), ReplyBlocks(reply));
      index.entries == r.entries && disk.files == r.files && writes == r.writes
  {
    writes := ApplyLines(Split(reply, '\n'), source, index, disk, ex, clock);
  }

  /** The loop of `apply_fixes_to_code` over the reply's lines. */
  method ApplyLines(lines: seq<string>, source: Listing, index: FileIndex, disk: Disk, ex: Extractors, clock: nat -> Tick)
    returns (writes: nat)
    requires index.Valid() && Ready(source, PatchState(index.entries, disk.files, 0))
    modifies index, disk
    ensures index.Valid() && index.keys == old(index.keys)
    ensures var r := ApplyBlocks(source, ex, clock, PatchState(old(index.entries), old(disk.files), 0), Parse(lines, 0, None));
      index.entries == r.entries && disk.files == r.files && writes == r.writes
  {
    var pending: Option<string> := None;
    var i: nat := 0;
    writes := 0;
    ghost var goal := ApplyBlocks(source, ex, clock, PatchState(index.entries, disk.files, 0), Parse(lines, 0, None));
    while i < |lines|
      invariant index.keys == old(index.keys) && index.entries.Keys == old(index.entries).Keys
      invariant Ready(source, PatchState(index.entries, disk.files, writes))
      invariant ApplyBlocks(source, ex, clock, PatchState(index.entries, disk.files, writes), Parse(lines, i, pending)) == goal
      decreases |lines| - i
    {
      ghost var before := PatchState(index.entries, disk.files, writes);
      ghost var todo := Parse(lines, i, pending);
      var line := Strip(lines[i]);
      if IsMarker(line) {
        ParseMarkerStep(lines, i, pending, MarkerName(line));
        pending := Some(MarkerName(line));
        i := i + 1;
        assert Parse(lines, i, pending) == todo;
        continue;
      }
      JavaFenceIsFence(line);
      if StartsWith(line, "```java") || StartsWith(line, Backticks) {
        assert Kind(lines[i]) == Fence;
        if pending.None? {
          ParseSkipsUnnamedFence(lines, i);
          i := i + 1;
          assert Parse(lines, i, pending) == todo;
          continue;
        }
        var e;
        e, writes := PatchBlock(lines, i, pending.value, source, index, disk, ex, clock, writes);
        ghost var b := Block(pending.value, Join(Newline, lines[i + 1..e]));
        ghost var after := PatchState(index.entries, disk.files, writes);
        ParseFenceStep(lines, i, pending.value, lines[i + 1..e], e);
        assert todo == [b] + Parse(lines, e + 1, None);
        ApplyBlocksCons(source, ex, clock, before, b, Parse(lines, e + 1, None));
        assert ApplyBlocks(source, ex, clock, after, Parse(lines, e + 1, None)) == goal;
        pending := None;
        i := e + 1;
      } else {
        ParsePlainStep(lines, i, pending);
        i := i + 1;
        assert Parse(lines, i, pending) == todo;
      }
    }
    ValidSameKeys(old(index.keys), old(index.entries), index.entries);
  }

  /** Replacing values under existing keys keeps a dictionary valid. */
  lemma ValidSameKeys(order: seq<string>, m: map<string, FileEntry>, m': map<string, FileEntry>)
    requires Listing(order, m).Valid() && m'.Keys == m.Keys
    ensures Listing(order, m').Valid()
  {
  }
}
