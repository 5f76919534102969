/**
 * The session state the repair graph passes from node to node (the LangGraph `dict` state), and
 * the `// FILE:` listings the fixer and the testing node build from it.
 *
 * A key that is absent from the Python dict is `None` here; a key present with the value `None`
 * is `Some(JNull)` for the fields that hold validator output.
 */
module Session {
  import opened Strings
  import opened Json
  import opened FileIndex

  /** A Python dict from file name to text: the backup of the original contents, or the path map. */
  datatype TextDict = TextDict(order: seq<string>, values: map<string, string>)

  /** The keys of the state that the repair loop reads and writes. */
  datatype Session = Session(
    fileIndex: Option<Listing>,
    relevantFiles: Option<Listing>,
    backup: Option<TextDict>,
    pathMap: Option<TextDict>,
    originalCode: Option<string>,
    fixedCode: Option<string>,
    originalError: Option<string>,
    testFailureReason: Option<string>,
    decision: Option<Json>,
    detailedReport: Option<Json>,
    recommendations: Option<Json>,
    failureReasons: Option<Json>,
    retries: Option<int>)

  /** The state the graph is started with: only the retry counter, set to 1. */
  function InitialSession(): Session {
    Session(None, None, None, None, None, None, None, None, None, None, None, None, Some(1))
  }

  /** `{fname: info["content"] for fname, info in index.items()}`. */
  function Contents(l: Listing): TextDict {
    TextDict(l.order, ContentMap(l))
  }

  /** `{fname: info["path"] for fname, info in index.items()}`. */
  function PathsOf(l: Listing): TextDict {
    TextDict(l.order, map k | k in l.entries :: l.entries[k].path)
  }

  function ContentMap(l: Listing): map<string, string> {
    map k | k in l.entries :: l.entries[k].content
  }

  /** One file of a code listing: `f"// FILE: {fname}\n{code}"`. */
  function FileSection(name: string, code: string): string {
    "// FILE: " + name + "\n" + code
  }

  /** `code.get(fname, '')`. */
  function Lookup(code: map<string, string>, name: string): string {
    if name in code then code[name] else ""
  }

  /** The sections for `names` in order, each with its code from `code` (empty when missing). */
  function Sections(names: seq<string>, code: map<string, string>): seq<string>
    decreases |names|
  {
    if names == [] then [] else [FileSection(names[0], Lookup(code, names[0]))] + Sections(names[1..], code)
  }

  /** A listing: the sections joined with a blank line between them. */
  function Listed(names: seq<string>, code: map<string, string>): string {
    Join("\n\n", Sections(names, code))
  }

  /** There is one section per name, in the order of the names. */
  lemma {:induction false} SectionsAt(names: seq<string>, code: map<string, string>)
    ensures |Sections(names, code)| == |names|
    ensures forall i :: 0 <= i < |names| ==> Sections(names, code)[i] == FileSection(names[i], Lookup(code, names[i]))
    decreases |names|
  {
    if names != [] {
      SectionsAt(names[1..], code);
      var r := Sections(names, code);
      forall i | 0 <= i < |names| ensures r[i] == FileSection(names[i], Lookup(code, names[i])) {
        if i > 0 {
          assert r[i] == Sections(names[1..], code)[i - 1];
        }
      }
    }
  }

  /** Sections depend only on the code of the names they list. */
  lemma {:induction false} SectionsAgree(names: seq<string>, a: map<string, string>, b: map<string, string>)
    requires forall i :: 0 <= i < |names| ==> Lookup(a, names[i]) == Lookup(b, names[i])
    ensures Sections(names, a) == Sections(names, b)
    decreases |names|
  {
    if names != [] {
      SectionsAgree(names[1..], a, b);
    }
  }
}
