/** The decision logic of the bash tool (packages/opencode/src/tool/bash.ts):
    timeout validation, the permission patterns computed from the parsed
    command, the order of the permission requests, the output buffer, the
    PTY retry counter and the metadata footer.

    The bash parser, `realpath`, `Filesystem.contains`, `BashArity.prefix`,
    `path.dirname` and the platform test are supplied by the caller as a
    `Host`; the process itself is a sequence of events. */
module BashTool {
  import opened Wrappers
  import opened JsText

  /** `MAX_OUTPUT_LENGTH` when its flag is unset. */
  const DefaultMaxOutputLength: nat := 30000
  /** `DEFAULT_TIMEOUT` (two minutes, in milliseconds) when its flag is unset. */
  const DefaultTimeoutMs: nat := 120000
  const PtyRetries: nat := 3

  /** `flag || fallback`: an unset flag or a flag set to 0 gives the fallback. */
  function Configured(flag: Option<nat>, fallback: nat): (r: nat)
    ensures flag.Some? && flag.value != 0 ==> r == flag.value
    ensures (flag.None? || flag.value == 0) ==> r == fallback
  {
    if flag.Some? && flag.value != 0 then flag.value else fallback
  }

  /** The services outside this model. */
  datatype Host = Host(
    root: string,                          // the project directory
    realpath: (string, string) -> string,  // standard output of `realpath arg` run in a directory
    contains: (string, string) -> bool,    // `Filesystem.contains(parent, child)`
    prefix: seq<string> -> seq<string>,    // `BashArity.prefix(tokens)`
    dirname: string -> string,             // `path.dirname`
    win32: bool)                           // `process.platform === "win32"`

  // Timeout

  function TimeoutError(t: int): string {
    "Invalid timeout value: " + IntToString(t) + ". Timeout must be a positive number."
  }

  /** A negative timeout is refused; an absent one takes the default; 0 and
      every positive value are used as given. */
  function ResolveTimeout(t: Option<int>, defaultTimeout: nat): (r: Result<nat, string>)
    ensures r.Err? <==> t.Some? && t.value < 0
    ensures r.Err? ==> r.error == TimeoutError(t.value)
    ensures t.None? ==> r == Ok(defaultTimeout)
    ensures t.Some? && t.value >= 0 ==> r == Ok(t.value)
  {
    match t
    case None => Ok(defaultTimeout)
    case Some(v) => if v < 0 then Err(TimeoutError(v)) else Ok(v)
  }

  // Tokens of a command node

  /** A child of a parsed command node: its grammar type and its source text. */
  datatype Child = Child(kind: string, text: string)

  /** A command node's children; a missing child is `None`. */
  type Node = seq<Option<Child>>

  predicate IsLiteralKind(kind: string) {
    kind in ["command_name", "word", "string", "raw_string", "concatenation"]
  }

  predicate IsLiteral(c: Option<Child>) {
    c.Some? && IsLiteralKind(c.value.kind)
  }

  /** The texts of the literal children, in child order. */
  function LiteralTexts(children: Node): (tokens: seq<string>)
    ensures |tokens| <= |children|
  {
    if children == [] then []
    else (if IsLiteral(children[0]) then [children[0].value.text] else []) + LiteralTexts(children[1..])
  }

  lemma {:induction false} LiteralTextsAppend(a: Node, b: Node)
    ensures LiteralTexts(a + b) == LiteralTexts(a) + LiteralTexts(b)
  {
    if a != [] {
      LiteralTextsAppend(a[1..], b);
      assert (a + b)[1..] == a[1..] + b;
    } else {
      assert a + b == b;
    }
  }

  /** A token is exactly the text of a literal child. */
  lemma {:induction false} LiteralTextsMembers(children: Node, t: string)
    ensures t in LiteralTexts(children) <==>
      exists k :: 0 <= k < |children| && IsLiteral(children[k]) && children[k].value.text == t
  {
    if children != [] {
      LiteralTextsMembers(children[1..], t);
      if t in LiteralTexts(children[1..]) {
        var k :| 0 <= k < |children[1..]| && IsLiteral(children[1..][k]) && children[1..][k].value.text == t;
        assert IsLiteral(children[k + 1]) && children[k + 1].value.text == t;
      }
      if exists k :: 0 <= k < |children| && IsLiteral(children[k]) && children[k].value.text == t {
        var k :| 0 <= k < |children| && IsLiteral(children[k]) && children[k].value.text == t;
        if k > 0 {
          assert IsLiteral(children[1..][k - 1]);
        }
      }
    }
  }

  /** The loop that collects a node's tokens. */
  method CommandTokens(children: Node) returns (command: seq<string>)
    ensures command == LiteralTexts(children)
  {
    command := [];
    for i := 0 to |children|
      invariant command + LiteralTexts(children[i..]) == LiteralTexts(children)
    {
      assert children[i..] == [children[i]] + children[i + 1..];
      LiteralTextsAppend([children[i]], children[i + 1..]);
      var child := children[i];
      if child.None? {
        continue;
      }
      if !IsLiteralKind(child.value.kind) {
        continue;
      }
      command := command + [child.value.text];
    }
  }

  // Path arguments

  /** The commands whose arguments are resolved as paths. */
  const PathCommands: seq<string> := ["cd", "rm", "cp", "mv", "mkdir", "touch", "chmod", "chown"]

  predicate IsPathCommand(command: seq<string>) {
    |command| > 0 && command[0] in PathCommands
  }

  /** Flags are not paths; for chmod neither are `+mode` arguments. */
  predicate IsSkippedArg(name: string, arg: string) {
    StartsWith(arg, "-") || (name == "chmod" && StartsWith(arg, "+"))
  }

  /** `/^\/[a-z]\//`: a Git Bash drive path such as `/c/Users`. */
  predicate IsGitBashDrivePath(p: string) {
    |p| >= 3 && p[0] == '/' && 'a' <= p[1] <= 'z' && p[2] == '/'
  }

  function ToUpperAscii(c: char): char {
    if 'a' <= c <= 'z' then (c as int - 32) as char else c
  }

  function Backslashed(s: string): (r: string)
    ensures |r| == |s|
    ensures forall k :: 0 <= k < |s| ==> r[k] == if s[k] == '/' then '\\' else s[k]
  {
    if s == [] then [] else [if s[0] == '/' then '\\' else s[0]] + Backslashed(s[1..])
  }

  /** The Git Bash rewrite: `/x/rest` becomes `X:\rest` with every "/" of
      `rest` turned into "\". */
  function WindowsPath(p: string): (r: string)
    requires IsGitBashDrivePath(p)
    ensures |r| == |p| && '/' !in r
    ensures r[0] == ToUpperAscii(p[1]) && 'A' <= r[0] <= 'Z' && r[1] == ':' && r[2] == '\\'
    ensures forall k :: 3 <= k < |p| ==> r[k] == if p[k] == '/' then '\\' else p[k]
  {
    [ToUpperAscii(p[1]), ':', '\\'] + Backslashed(p[3..])
  }

  /** The path recorded for a resolved argument. */
  function Normalized(h: Host, resolved: string): string {
    if h.win32 && IsGitBashDrivePath(resolved) then WindowsPath(resolved) else resolved
  }

  /** `realpath` output, trimmed. */
  function Resolved(h: Host, cwd: string, arg: string): string {
    Trim(h.realpath(cwd, arg))
  }

  /** The paths outside the project that one argument contributes. */
  predicate IsOutsidePathOf(h: Host, cwd: string, name: string, arg: string, p: string) {
    && !IsSkippedArg(name, arg)
    && Resolved(h, cwd, arg) != ""
    && p == Normalized(h, Resolved(h, cwd, arg))
    && !h.contains(h.root, p)
  }

  /** The outside path one argument contributes, if any. */
  function OutsidePathOf(h: Host, cwd: string, name: string, arg: string): (r: seq<string>)
    ensures |r| <= 1
    ensures forall p :: p in r <==> IsOutsidePathOf(h, cwd, name, arg, p)
  {
    var p := Normalized(h, Resolved(h, cwd, arg));
    if IsOutsidePathOf(h, cwd, name, arg, p) then [p] else []
  }

  /** The outside paths of the arguments of a path command, in argument order. */
  function OutsidePaths(h: Host, cwd: string, name: string, args: seq<string>): seq<string>
    decreases |args|
  {
    if args == [] then [] else OutsidePathOf(h, cwd, name, args[0]) + OutsidePaths(h, cwd, name, args[1..])
  }

  lemma {:induction false} OutsidePathsMembers(h: Host, cwd: string, name: string, args: seq<string>, p: string)
    ensures p in OutsidePaths(h, cwd, name, args) <==> exists arg :: arg in args && IsOutsidePathOf(h, cwd, name, arg, p)
    decreases |args|
  {
    if args != [] {
      OutsidePathsMembers(h, cwd, name, args[1..], p);
      var head := OutsidePathOf(h, cwd, name, args[0]);
      assert OutsidePaths(h, cwd, name, args) == head + OutsidePaths(h, cwd, name, args[1..]);
      assert forall arg :: arg in args <==> arg == args[0] || arg in args[1..];
    }
  }

  /** What one command adds to `directories`. */
  function ExternalPaths(h: Host, cwd: string, command: seq<string>): seq<string> {
    if IsPathCommand(command) then OutsidePaths(h, cwd, command[0], command[1..]) else []
  }

  // Insertion-ordered sets

  predicate Distinct(s: seq<string>) {
    forall i, j :: 0 <= i < j < |s| ==> s[i] != s[j]
  }

  /** `Set.add` on an insertion-ordered set. */
  function AddOnce(s: seq<string>, x: string): (r: seq<string>)
    ensures Distinct(s) ==> Distinct(r)
    ensures forall y :: y in r <==> y in s || y == x
  {
    if x in s then s else s + [x]
  }

  function AddEach(s: seq<string>, xs: seq<string>): seq<string>
    decreases |xs|
  {
    if xs == [] then s else AddEach(AddOnce(s, xs[0]), xs[1..])
  }

  lemma {:induction false} AddEachMembers(s: seq<string>, xs: seq<string>)
    ensures Distinct(s) ==> Distinct(AddEach(s, xs))
    ensures forall y :: y in AddEach(s, xs) <==> y in s || y in xs
    decreases |xs|
  {
    if xs != [] {
      AddEachMembers(AddOnce(s, xs[0]), xs[1..]);
      assert forall y :: y in xs <==> y == xs[0] || y in xs[1..];
    }
  }

  lemma {:induction false} AddEachAppend(s: seq<string>, xs: seq<string>, ys: seq<string>)
    ensures AddEach(s, xs + ys) == AddEach(AddEach(s, xs), ys)
    decreases |xs|
  {
    if xs == [] {
      assert xs + ys == ys;
    } else {
      var zs := xs + ys;
      assert zs != [] && zs[0] == xs[0] && zs[1..] == xs[1..] + ys;
      assert AddEach(s, zs) == AddEach(AddOnce(s, xs[0]), xs[1..] + ys);
      AddEachAppend(AddOnce(s, xs[0]), xs[1..], ys);
    }
  }

  // The three sets

  datatype Analysis = Analysis(directories: seq<string>, patterns: seq<string>, always: seq<string>)

  /** A command that yields a bash pattern: non-empty and not `cd`. */
  predicate HasPattern(command: seq<string>) {
    |command| > 0 && command[0] != "cd"
  }

  function InitialDirectories(h: Host, cwd: string): seq<string> {
    if !h.contains(h.root, cwd) then [cwd] else []
  }

  function Pattern(command: seq<string>): string {
    Join(command, " ")
  }

  function AlwaysPattern(h: Host, command: seq<string>): string {
    Join(h.prefix(command), " ") + "*"
  }

  /** The effect of one command node on the sets. */
  function AnalyzeNode(h: Host, cwd: string, a: Analysis, node: Option<Node>): Analysis {
    if node.None? then a
    else
      var command := LiteralTexts(node.value);
      Analysis(
        AddEach(a.directories, ExternalPaths(h, cwd, command)),
        if HasPattern(command) then AddOnce(a.patterns, Pattern(command)) else a.patterns,
        if HasPattern(command) then AddOnce(a.always, AlwaysPattern(h, command)) else a.always)
  }

  function AnalyzeNodes(h: Host, cwd: string, a: Analysis, nodes: seq<Option<Node>>): Analysis
    decreases |nodes|
  {
    if nodes == [] then a else AnalyzeNodes(h, cwd, AnalyzeNode(h, cwd, a, nodes[0]), nodes[1..])
  }

  function Analyze(h: Host, cwd: string, nodes: seq<Option<Node>>): Analysis {
    AnalyzeNodes(h, cwd, Analysis(InitialDirectories(h, cwd), [], []), nodes)
  }

  /** The loop over the arguments of a path command. */
  method AddOutsidePaths(h: Host, cwd: string, command: seq<string>, directories: seq<string>) returns (res: seq<string>)
    requires IsPathCommand(command)
    ensures res == AddEach(directories, ExternalPaths(h, cwd, command))
  {
    res := directories;
    var args := command[1..];
    for k := 0 to |args|
      invariant AddEach(res, OutsidePaths(h, cwd, command[0], args[k..])) == AddEach(directories, ExternalPaths(h, cwd, command))
    {
      var arg := args[k];
      ghost var found := OutsidePathOf(h, cwd, command[0], arg);
      assert OutsidePaths(h, cwd, command[0], args[k..]) == found + OutsidePaths(h, cwd, command[0], args[k + 1..]) by {
        assert args[k..][1..] == args[k + 1..];
      }
      AddEachAppend(res, found, OutsidePaths(h, cwd, command[0], args[k + 1..]));
      if IsSkippedArg(command[0], arg) {
        continue;
      }
      var resolved := Trim(h.realpath(cwd, arg));
      if resolved != "" {
        var normalized := if h.win32 && IsGitBashDrivePath(resolved) then WindowsPath(resolved) else resolved;
        if !h.contains(h.root, normalized) {
          assert found == [normalized];
          res := AddOnce(res, normalized);
        }
      }
    }
    assert args[|args|..] == [];
  }

  /** The loop over command nodes. */
  method AnalyzeCommands(h: Host, cwd: string, nodes: seq<Option<Node>>) returns (a: Analysis)
    ensures a == Analyze(h, cwd, nodes)
  {
    var directories := if !h.contains(h.root, cwd) then [cwd] else [];
    var patterns: seq<string> := [];
    var always: seq<string> := [];
    for n := 0 to |nodes|
      invariant AnalyzeNodes(h, cwd, Analysis(directories, patterns, always), nodes[n..]) == Analyze(h, cwd, nodes)
    {
      assert nodes[n..][1..] == nodes[n + 1..];
      if nodes[n].None? {
        continue;
      }
      var command := CommandTokens(nodes[n].value);
      if IsPathCommand(command) {
        directories := AddOutsidePaths(h, cwd, command, directories);
      }
      if |command| > 0 && command[0] != "cd" {
        patterns := AddOnce(patterns, Join(command, " "));
        always := AddOnce(always, Join(h.prefix(command), " ") + "*");
      }
    }
    assert nodes[|nodes|..] == [];
    a := Analysis(directories, patterns, always);
  }

  // Properties of the sets

  /** The node is a command and `d` is among its outside paths. */
  predicate DirectoryFrom(h: Host, cwd: string, node: Option<Node>, d: string) {
    node.Some? && d in ExternalPaths(h, cwd, LiteralTexts(node.value))
  }

  /** The node is a command other than `cd` whose pattern is `p`. */
  predicate PatternFrom(node: Option<Node>, p: string) {
    node.Some? && HasPattern(LiteralTexts(node.value)) && p == Pattern(LiteralTexts(node.value))
  }

  /** The node is a command other than `cd` whose arity pattern is `p`. */
  predicate AlwaysFrom(h: Host, node: Option<Node>, p: string) {
    node.Some? && HasPattern(LiteralTexts(node.value)) && p == AlwaysPattern(h, LiteralTexts(node.value))
  }

  /** The sets never hold a value twice. */
  lemma {:induction false} AnalyzeNodesDistinct(h: Host, cwd: string, a: Analysis, nodes: seq<Option<Node>>)
    requires Distinct(a.directories) && Distinct(a.patterns) && Distinct(a.always)
    ensures var r := AnalyzeNodes(h, cwd, a, nodes);
      Distinct(r.directories) && Distinct(r.patterns) && Distinct(r.always)
    decreases |nodes|
  {
    if nodes != [] {
      if nodes[0].Some? {
        AddEachMembers(a.directories, ExternalPaths(h, cwd, LiteralTexts(nodes[0].value)));
      }
      AnalyzeNodesDistinct(h, cwd, AnalyzeNode(h, cwd, a, nodes[0]), nodes[1..]);
    }
  }

  /** `directories` gains exactly the outside paths of the path commands. */
  lemma {:induction false} DirectoriesMembers(h: Host, cwd: string, a: Analysis, nodes: seq<Option<Node>>, d: string)
    ensures d in AnalyzeNodes(h, cwd, a, nodes).directories <==>
      d in a.directories || exists k :: 0 <= k < |nodes| && DirectoryFrom(h, cwd, nodes[k], d)
    decreases |nodes|
  {
    if nodes != [] {
      var a' := AnalyzeNode(h, cwd, a, nodes[0]);
      DirectoriesMembers(h, cwd, a', nodes[1..], d);
      if nodes[0].Some? {
        AddEachMembers(a.directories, ExternalPaths(h, cwd, LiteralTexts(nodes[0].value)));
      }
      assert d in a'.directories <==> d in a.directories || DirectoryFrom(h, cwd, nodes[0], d);
      assert (exists k :: 0 <= k < |nodes| && DirectoryFrom(h, cwd, nodes[k], d)) <==>
        DirectoryFrom(h, cwd, nodes[0], d) || exists k :: 0 <= k < |nodes[1..]| && DirectoryFrom(h, cwd, nodes[1..][k], d)
      by {
        if exists k :: 0 <= k < |nodes| && DirectoryFrom(h, cwd, nodes[k], d) {
          var k :| 0 <= k < |nodes| && DirectoryFrom(h, cwd, nodes[k], d);
          if k > 0 {
            assert nodes[1..][k - 1] == nodes[k];
          }
        }
        if exists k :: 0 <= k < |nodes[1..]| && DirectoryFrom(h, cwd, nodes[1..][k], d) {
          var k :| 0 <= k < |nodes[1..]| && DirectoryFrom(h, cwd, nodes[1..][k], d);
          assert nodes[1..][k] == nodes[k + 1];
        }
      }
    }
  }

  /** `patterns` gains exactly the joined tokens of the commands that are
      neither empty nor `cd`. */
  lemma {:induction false} PatternsMembers(h: Host, cwd: string, a: Analysis, nodes: seq<Option<Node>>, p: string)
    ensures p in AnalyzeNodes(h, cwd, a, nodes).patterns <==>
      p in a.patterns || exists k :: 0 <= k < |nodes| && PatternFrom(nodes[k], p)
    decreases |nodes|
  {
    if nodes != [] {
      var a' := AnalyzeNode(h, cwd, a, nodes[0]);
      PatternsMembers(h, cwd, a', nodes[1..], p);
      assert p in a'.patterns <==> p in a.patterns || PatternFrom(nodes[0], p);
      assert (exists k :: 0 <= k < |nodes| && PatternFrom(nodes[k], p)) <==>
        PatternFrom(nodes[0], p) || exists k :: 0 <= k < |nodes[1..]| && PatternFrom(nodes[1..][k], p)
      by {
        if exists k :: 0 <= k < |nodes| && PatternFrom(nodes[k], p) {
          var k :| 0 <= k < |nodes| && PatternFrom(nodes[k], p);
          if k > 0 {
            assert nodes[1..][k - 1] == nodes[k];
          }
        }
        if exists k :: 0 <= k < |nodes[1..]| && PatternFrom(nodes[1..][k], p) {
          var k :| 0 <= k < |nodes[1..]| && PatternFrom(nodes[1..][k], p);
          assert nodes[1..][k] == nodes[k + 1];
        }
      }
    }
  }

  /** `always` gains exactly the arity patterns of the commands that are
      neither empty nor `cd`. */
  lemma {:induction false} AlwaysMembers(h: Host, cwd: string, a: Analysis, nodes: seq<Option<Node>>, p: string)
    ensures p in AnalyzeNodes(h, cwd, a, nodes).always <==>
      p in a.always || exists k :: 0 <= k < |nodes| && AlwaysFrom(h, nodes[k], p)
    decreases |nodes|
  {
    if nodes != [] {
      var a' := AnalyzeNode(h, cwd, a, nodes[0]);
      AlwaysMembers(h, cwd, a', nodes[1..], p);
      assert p in a'.always <==> p in a.always || AlwaysFrom(h, nodes[0], p);
      assert (exists k :: 0 <= k < |nodes| && AlwaysFrom(h, nodes[k], p)) <==>
        AlwaysFrom(h, nodes[0], p) || exists k :: 0 <= k < |nodes[1..]| && AlwaysFrom(h, nodes[1..][k], p)
      by {
        if exists k :: 0 <= k < |nodes| && AlwaysFrom(h, nodes[k], p) {
          var k :| 0 <= k < |nodes| && AlwaysFrom(h, nodes[k], p);
          if k > 0 {
            assert nodes[1..][k - 1] == nodes[k];
          }
        }
        if exists k :: 0 <= k < |nodes[1..]| && AlwaysFrom(h, nodes[1..][k], p) {
          var k :| 0 <= k < |nodes[1..]| && AlwaysFrom(h, nodes[1..][k], p);
          assert nodes[1..][k] == nodes[k + 1];
        }
      }
    }
  }

  /** A path command's outside paths are those of its arguments. */
  lemma DirectoryFromArgs(h: Host, cwd: string, node: Option<Node>, d: string)
    ensures DirectoryFrom(h, cwd, node, d) <==>
      && node.Some? && IsPathCommand(LiteralTexts(node.value))
      && exists arg :: arg in LiteralTexts(node.value)[1..] && IsOutsidePathOf(h, cwd, LiteralTexts(node.value)[0], arg, d)
  {
    if node.Some? && IsPathCommand(LiteralTexts(node.value)) {
      var c := LiteralTexts(node.value);
      OutsidePathsMembers(h, cwd, c[0], c[1..], d);
    }
  }

  /** What the analysis of a parsed command asks for: the working directory
      when it is outside the project and the outside paths of the path
      commands; a pattern and an arity pattern for each command other than
      `cd`; with no repetitions. */
  lemma AnalyzeMembers(h: Host, cwd: string, nodes: seq<Option<Node>>, d: string, p: string)
    ensures var r := Analyze(h, cwd, nodes);
      && Distinct(r.directories) && Distinct(r.patterns) && Distinct(r.always)
      && (d in r.directories <==>
            (d == cwd && !h.contains(h.root, cwd)) || exists k :: 0 <= k < |nodes| && DirectoryFrom(h, cwd, nodes[k], d))
      && (p in r.patterns <==> exists k :: 0 <= k < |nodes| && PatternFrom(nodes[k], p))
      && (p in r.always <==> exists k :: 0 <= k < |nodes| && AlwaysFrom(h, nodes[k], p))
  {
    var a := Analysis(InitialDirectories(h, cwd), [], []);
    AnalyzeNodesDistinct(h, cwd, a, nodes);
    DirectoriesMembers(h, cwd, a, nodes, d);
    PatternsMembers(h, cwd, a, nodes, p);
    AlwaysMembers(h, cwd, a, nodes, p);
  }

  /** A `cd`, or a node without literal tokens, adds no bash pattern. */
  lemma CdAddsNoPattern(h: Host, cwd: string, a: Analysis, node: Node)
    requires LiteralTexts(node) == [] || LiteralTexts(node)[0] == "cd"
    ensures AnalyzeNode(h, cwd, a, Some(node)).patterns == a.patterns
    ensures AnalyzeNode(h, cwd, a, Some(node)).always == a.always
  {
  }

  // Permission requests

  datatype Ask = Ask(permission: string, patterns: seq<string>, always: seq<string>)

  function DirectoryAlways(h: Host, dirs: seq<string>): (r: seq<string>)
    ensures |r| == |dirs| && forall k :: 0 <= k < |dirs| ==> r[k] == h.dirname(dirs[k]) + "*"
  {
    if dirs == [] then [] else [h.dirname(dirs[0]) + "*"] + DirectoryAlways(h, dirs[1..])
  }

  /** The permission requests, in the order they are awaited. */
  function PermissionAsks(h: Host, a: Analysis): (asks: seq<Ask>)
    ensures |asks| == (if |a.directories| > 0 then 1 else 0) + (if |a.patterns| > 0 then 1 else 0)
    ensures |a.directories| > 0 ==> asks[0] == Ask("external_directory", a.directories, DirectoryAlways(h, a.directories))
    ensures |a.patterns| > 0 ==> asks[|asks| - 1] == Ask("bash", a.patterns, a.always)
    ensures forall k :: 0 <= k < |asks| ==> asks[k].permission in ["external_directory", "bash"]
  {
    (if |a.directories| > 0 then [Ask("external_directory", a.directories, DirectoryAlways(h, a.directories))] else [])
      + (if |a.patterns| > 0 then [Ask("bash", a.patterns, a.always)] else [])
  }

  /** Awaiting the requests in turn: the first refused one stops the tool. */
  function FirstRefused(asks: seq<Ask>, granted: Ask -> bool): (r: Option<nat>)
    ensures r.Some? ==> r.value < |asks| && !granted(asks[r.value])
    ensures r.Some? ==> forall k :: 0 <= k < r.value ==> granted(asks[k])
    ensures r.None? ==> forall k :: 0 <= k < |asks| ==> granted(asks[k])
  {
    if asks == [] then None
    else if !granted(asks[0]) then Some(0)
    else match FirstRefused(asks[1..], granted)
      case None => None
      case Some(k) => Some(k + 1)
  }

  /** A refused directory request means the bash request is never made. */
  lemma DirectoryRefusalStops(h: Host, a: Analysis, granted: Ask -> bool)
    requires |a.directories| > 0 && !granted(PermissionAsks(h, a)[0])
    ensures FirstRefused(PermissionAsks(h, a), granted) == Some(0)
  {
  }

  // The output buffer and the process

  /** `append`: a chunk is added only while the buffer is within the limit. */
  function Appended(output: string, chunk: string, limit: nat): (r: string)
    ensures |output| <= limit ==> r == output + chunk
    ensures |output| > limit ==> r == output
  {
    if |output| <= limit then output + chunk else output
  }

  datatype Event =
    | Data(chunk: string)           // output from the process
    | PtyExit(code: int)            // the PTY's exit callback
    | ChildExit(status: Option<int>)  // the fallback child's "exit"
    | ChildError(message: string)   // the fallback child's "error"
    | TimerFired                    // the timeout timer (timeout + 100 ms)
    | AbortSignalled                // the abort signal

  /** The captured variables after the process has been watched. */
  datatype Watch = Watch(output: string, published: seq<string>, exitCode: int, timedOut: bool, aborted: bool, ended: Option<Result<(), string>>)

  /** The event that ends the wait for the given process kind. */
  predicate Ends(e: Event, usedPty: bool) {
    if usedPty then e.PtyExit? else e.ChildExit? || e.ChildError?
  }

  /** One callback. `PtyExit` belongs to the PTY, `ChildExit` and `ChildError`
      to the fallback child; each kind ignores the other's events. */
  function OnEvent(w: Watch, e: Event, usedPty: bool, limit: nat): Watch {
    match e
    case Data(chunk) =>
      if |w.output| <= limit then w.(output := w.output + chunk, published := w.published + [w.output + chunk]) else w
    case PtyExit(code) => if usedPty then w.(exitCode := code, ended := Some(Ok(()))) else w
    case ChildExit(status) => if usedPty then w else w.(exitCode := status.GetOr(0), ended := Some(Ok(())))
    case ChildError(message) => if usedPty then w else w.(ended := Some(Err(message)))
    case TimerFired => w.(timedOut := true)
    case AbortSignalled => w.(aborted := true)
  }

  /** The events are delivered in order until the process ends. */
  function Replay(w: Watch, events: seq<Event>, usedPty: bool, limit: nat): Watch
    requires w.ended.None?
    decreases |events|
  {
    if events == [] then w
    else
      var next := OnEvent(w, events[0], usedPty, limit);
      if next.ended.Some? then next else Replay(next, events[1..], usedPty, limit)
  }

  function Started(preAborted: bool): Watch {
    Watch("", [""], 0, false, preAborted, None)
  }

  /** Waiting for the process: the callbacks, in the order the events arrive. */
  method WatchProcess(usedPty: bool, preAborted: bool, events: seq<Event>, limit: nat) returns (w: Watch)
    ensures w == Replay(Started(preAborted), events, usedPty, limit)
  {
    var output := "";
    var published: seq<string> := [""];
    var exitCode := 0;
    var timedOut := false;
    var aborted := false;
    if preAborted {
      aborted := true;
    }
    var i := 0;
    while i < |events|
      invariant i <= |events|
      invariant Replay(Watch(output, published, exitCode, timedOut, aborted, None), events[i..], usedPty, limit)
             == Replay(Started(preAborted), events, usedPty, limit)
    {
      assert events[i..][1..] == events[i + 1..];
      var e := events[i];
      match e {
        case Data(chunk) =>
          if |output| <= limit {
            output := output + chunk;
            published := published + [output];
          }
        case PtyExit(code) =>
          if usedPty {
            exitCode := code;
            w := Watch(output, published, exitCode, timedOut, aborted, Some(Ok(())));
            return;
          }
        case ChildExit(status) =>
          if !usedPty {
            exitCode := if status.Some? then status.value else 0;
            w := Watch(output, published, exitCode, timedOut, aborted, Some(Ok(())));
            return;
          }
        case ChildError(message) =>
          if !usedPty {
            w := Watch(output, published, exitCode, timedOut, aborted, Some(Err(message)));
            return;
          }
        case TimerFired =>
          timedOut := true;
        case AbortSignalled =>
          aborted := true;
      }
      i := i + 1;
    }
    w := Watch(output, published, exitCode, timedOut, aborted, None);
  }

  /** The concatenation of the data chunks among the events. */
  function Stream(events: seq<Event>): string
    decreases |events|
  {
    if events == [] then "" else (if events[0].Data? then events[0].chunk else "") + Stream(events[1..])
  }

  /** Every chunk among the events is at most `m` long. */
  predicate ChunksAtMost(events: seq<Event>, m: nat) {
    forall k :: 0 <= k < |events| && events[k].Data? ==> |events[k].chunk| <= m
  }

  /** Once the buffer is past the limit it no longer changes. */
  lemma {:induction false} ReplayFrozen(w: Watch, events: seq<Event>, usedPty: bool, limit: nat)
    requires w.ended.None? && |w.output| > limit
    ensures Replay(w, events, usedPty, limit).output == w.output
    decreases |events|
  {
    if events != [] {
      var next := OnEvent(w, events[0], usedPty, limit);
      if next.ended.None? {
        ReplayFrozen(next, events[1..], usedPty, limit);
      }
    }
  }

  /** The buffer only grows, and is always a prefix of everything the
      process wrote; while the process has not ended and everything written
      fits within the limit, the buffer holds all of it. */
  lemma {:induction false} ReplayPrefix(w: Watch, events: seq<Event>, usedPty: bool, limit: nat)
    requires w.ended.None?
    ensures var r := Replay(w, events, usedPty, limit);
      && StartsWith(r.output, w.output)
      && StartsWith(w.output + Stream(events), r.output)
      && (r.ended.None? && |w.output + Stream(events)| <= limit ==> r.output == w.output + Stream(events))
    decreases |events|
  {
    if events == [] {
      StartsWithAppend(w.output, "");
    } else if |w.output| > limit || OnEvent(w, events[0], usedPty, limit).ended.Some? {
      ReplayPrefixStops(w, events, usedPty, limit);
    } else {
      var r := Replay(w, events, usedPty, limit);
      var next := OnEvent(w, events[0], usedPty, limit);
      var first := if events[0].Data? then events[0].chunk else "";
      assert w.output + Stream(events) == (w.output + first) + Stream(events[1..]);
      assert next.output == w.output + first;
      ReplayPrefix(next, events[1..], usedPty, limit);
      StartsWithAppend(w.output, first);
      StartsWithTrans(r.output, next.output, w.output);
    }
  }

  /** When the process ends at event `k` and what it wrote before that fits
      within the limit, the replay ends there with all of it in the buffer. */
  lemma {:induction false} ReplayEndedOutput(w: Watch, events: seq<Event>, usedPty: bool, limit: nat, k: nat)
    requires w.ended.None?
    requires k < |events| && Ends(events[k], usedPty)
    requires forall i :: 0 <= i < k ==> !Ends(events[i], usedPty)
    requires |w.output + Stream(events[..k])| <= limit
    ensures var r := Replay(w, events, usedPty, limit);
      r.ended.Some? && r.output == w.output + Stream(events[..k])
    decreases k
  {
    var next := OnEvent(w, events[0], usedPty, limit);
    if k == 0 {
      assert events[..0] == [];
      assert next.ended.Some? && next.output == w.output;
    } else {
      var first := if events[0].Data? then events[0].chunk else "";
      assert events[..k][0] == events[0];
      assert events[..k][1..] == events[1..][..k - 1];
      assert Stream(events[..k]) == first + Stream(events[1..][..k - 1]);
      assert !Ends(events[0], usedPty);
      assert next.ended.None? && next.output == w.output + first;
      assert w.output + Stream(events[..k]) == next.output + Stream(events[1..][..k - 1]);
      forall i | 0 <= i < k - 1
        ensures !Ends(events[1..][i], usedPty)
      {
        assert events[1..][i] == events[i + 1];
      }
      ReplayEndedOutput(next, events[1..], usedPty, limit, k - 1);
    }
  }

  /** `ReplayPrefix` when the buffer is already past the limit or the first
      event ends the process: the buffer stays as it is. */
  lemma ReplayPrefixStops(w: Watch, events: seq<Event>, usedPty: bool, limit: nat)
    requires w.ended.None? && events != []
    requires |w.output| > limit || OnEvent(w, events[0], usedPty, limit).ended.Some?
    ensures var r := Replay(w, events, usedPty, limit);
      && r.output == w.output
      && StartsWith(w.output + Stream(events), r.output)
  {
    if |w.output| > limit {
      ReplayFrozen(w, events, usedPty, limit);
    }
    StartsWithAppend(w.output, Stream(events));
  }

  /** The buffer passes the limit by at most one chunk. */
  lemma {:induction false} ReplayBound(w: Watch, events: seq<Event>, usedPty: bool, limit: nat, m: nat)
    requires w.ended.None? && ChunksAtMost(events, m) && |w.output| <= limit + m
    ensures |Replay(w, events, usedPty, limit).output| <= limit + m
    decreases |events|
  {
    if events != [] {
      var next := OnEvent(w, events[0], usedPty, limit);
      if next.ended.None? {
        assert ChunksAtMost(events[1..], m) by {
          forall k | 0 <= k < |events[1..]| && events[1..][k].Data? ensures |events[1..][k].chunk| <= m {
            assert events[1..][k] == events[k + 1];
          }
        }
        ReplayBound(next, events[1..], usedPty, limit, m);
      }
    }
  }

  /** Each metadata update publishes the buffer as it then is: earlier
      updates are kept and the latest one is the current buffer. */
  lemma {:induction false} ReplayPublished(w: Watch, events: seq<Event>, usedPty: bool, limit: nat)
    requires w.ended.None? && |w.published| > 0 && w.published[|w.published| - 1] == w.output
    ensures var r := Replay(w, events, usedPty, limit);
      && |r.published| >= |w.published| && r.published[..|w.published|] == w.published
      && r.published[|r.published| - 1] == r.output
    decreases |events|
  {
    if events != [] {
      var next := OnEvent(w, events[0], usedPty, limit);
      OnEventPublished(w, events[0], usedPty, limit);
      if next.ended.None? {
        ReplayPublished(next, events[1..], usedPty, limit);
        PrefixTrans(Replay(next, events[1..], usedPty, limit).published, next.published, w.published);
      }
    }
  }

  /** One event keeps the published list and may append the new buffer. */
  lemma OnEventPublished(w: Watch, e: Event, usedPty: bool, limit: nat)
    requires |w.published| > 0 && w.published[|w.published| - 1] == w.output
    ensures var n := OnEvent(w, e, usedPty, limit);
      && |n.published| >= |w.published| && n.published[..|w.published|] == w.published
      && n.published[|n.published| - 1] == n.output
  {
  }

  lemma PrefixTrans<T>(a: seq<T>, b: seq<T>, c: seq<T>)
    requires |b| <= |a| && a[..|b|] == b && |c| <= |b| && b[..|c|] == c
    ensures |c| <= |a| && a[..|c|] == c
  {
    assert a[..|c|] == a[..|b|][..|c|];
  }

  /** Timeout and abort only set their flags: the wait goes on until the
      process ends. A fallback exit without a code counts as 0. */
  lemma ExitCodeDefault(w: Watch, rest: seq<Event>, usedPty: bool, limit: nat)
    requires w.ended.None?
    ensures !usedPty ==> Replay(w, [ChildExit(None)] + rest, usedPty, limit).exitCode == 0
    ensures !usedPty ==> Replay(w, [ChildExit(None)] + rest, usedPty, limit).ended == Some(Ok(()))
    ensures Replay(w, [TimerFired] + rest, usedPty, limit) == Replay(w.(timedOut := true), rest, usedPty, limit)
    ensures Replay(w, [AbortSignalled] + rest, usedPty, limit) == Replay(w.(aborted := true), rest, usedPty, limit)
  {
    assert ([TimerFired] + rest)[1..] == rest;
    assert ([AbortSignalled] + rest)[1..] == rest;
  }

  // PTY retries

  /** The pauses after failed attempts: 50 ms, then 100 ms. */
  function Backoffs(n: nat): (r: seq<nat>)
    ensures |r| == n && forall k :: 0 <= k < n ==> r[k] == 50 * (k + 1)
  {
    seq(n, k => 50 * (k + 1))
  }

  /** Whether one of the three PTY attempts succeeds. */
  predicate PtyObtained(spawns: nat -> bool) {
    exists k :: 0 <= k < PtyRetries && spawns(k)
  }

  /** Up to three PTY attempts; `spawns(k)` tells whether attempt `k` succeeds.
      Returns whether a PTY was obtained, how many attempts were made, and the
      pauses taken between them. */
  method SpawnWithRetries(spawns: nat -> bool) returns (usedPty: bool, attempts: nat, pauses: seq<nat>)
    ensures 1 <= attempts <= PtyRetries
    ensures usedPty <==> exists k :: 0 <= k < PtyRetries && spawns(k)
    ensures usedPty ==> spawns(attempts - 1)
    ensures forall k :: 0 <= k < attempts - 1 ==> !spawns(k)
    ensures !usedPty ==> attempts == PtyRetries
    ensures pauses == Backoffs(if usedPty then attempts - 1 else PtyRetries - 1)
  {
    usedPty, attempts, pauses := false, 0, [];
    var attempt := 0;
    while attempt < PtyRetries
      invariant attempt <= PtyRetries && attempts == attempt
      invariant forall k :: 0 <= k < attempt ==> !spawns(k)
      invariant pauses == Backoffs(if attempt == PtyRetries then PtyRetries - 1 else attempt)
    {
      attempts := attempt + 1;
      if spawns(attempt) {
        usedPty := true;
        return;
      }
      if attempt < PtyRetries - 1 {
        pauses := pauses + [50 * (attempt + 1)];
      }
      attempt := attempt + 1;
    }
  }

  // Footer

  const FooterOpen := "<bash_metadata>"
  const FooterClose := "</bash_metadata>"

  function TruncatedNote(limit: nat): string {
    "bash tool truncated output as it exceeded " + NatToString(limit) + " char limit"
  }

  function TimeoutNote(timeout: nat): string {
    "bash tool terminated command after exceeding timeout " + NatToString(timeout) + " ms"
  }

  const AbortNote := "User aborted the command"

  /** The notes, in their fixed order. */
  function Notes(truncated: bool, timedOut: bool, aborted: bool, limit: nat, timeout: nat): (r: seq<string>)
    ensures |r| == (if truncated then 1 else 0) + (if timedOut then 1 else 0) + (if aborted then 1 else 0)
  {
    (if truncated then [TruncatedNote(limit)] else [])
      + (if timedOut then [TimeoutNote(timeout)] else [])
      + (if aborted then [AbortNote] else [])
  }

  /** The text the tool returns. */
  function FinalOutput(output: string, limit: nat, timedOut: bool, aborted: bool, timeout: nat): string {
    var truncated := |output| > limit;
    var body := if truncated then output[..limit] else output;
    var notes := Notes(truncated, timedOut, aborted, limit, timeout);
    if |notes| > 0 then body + "\n\n" + Join([FooterOpen] + notes + [FooterClose], "\n") else body
  }

  /** Building the footer as the source does, by pushing onto a list. */
  method Finish(output: string, limit: nat, timedOut: bool, aborted: bool, timeout: nat) returns (result: string)
    ensures result == FinalOutput(output, limit, timedOut, aborted, timeout)
  {
    result := output;
    var meta := [FooterOpen];
    ghost var notes: seq<string> := [];
    if |result| > limit {
      result := result[..limit];
      meta, notes := meta + [TruncatedNote(limit)], notes + [TruncatedNote(limit)];
    }
    assert meta == [FooterOpen] + notes;
    if timedOut {
      meta, notes := meta + [TimeoutNote(timeout)], notes + [TimeoutNote(timeout)];
    }
    assert meta == [FooterOpen] + notes;
    if aborted {
      meta, notes := meta + [AbortNote], notes + [AbortNote];
    }
    assert meta == [FooterOpen] + notes;
    assert notes == Notes(|output| > limit, timedOut, aborted, limit, timeout);
    if |meta| > 1 {
      meta := meta + [FooterClose];
      result := result + "\n\n" + Join(meta, "\n");
    }
  }

  /** The output is returned untouched exactly when nothing is to be reported;
      otherwise it is cut to the limit and followed by a blank line and the
      footer. */
  lemma FooterIff(output: string, limit: nat, timedOut: bool, aborted: bool, timeout: nat)
    ensures var r := FinalOutput(output, limit, timedOut, aborted, timeout);
      var noted := |output| > limit || timedOut || aborted;
      && (!noted ==> r == output)
      && (noted ==>
            var body := if |output| > limit then output[..limit] else output;
            && StartsWith(r, body + "\n\n" + FooterOpen)
            && |r| > |body| + 2 + |FooterOpen|)
      && (|output| > limit ==> r[..limit] == output[..limit])
  {
    var truncated := |output| > limit;
    var body := if truncated then output[..limit] else output;
    var notes := Notes(truncated, timedOut, aborted, limit, timeout);
    if |notes| > 0 {
      var lines := [FooterOpen] + notes + [FooterClose];
      assert |lines| >= 2 && lines[0] == FooterOpen;
      FooterShape(body, lines);
    }
  }

  /** A body followed by a blank line and a footer that opens with the
      metadata tag starts with both, and is longer. */
  lemma FooterShape(body: string, lines: seq<string>)
    requires |lines| >= 2 && lines[0] == FooterOpen
    ensures var r := body + "\n\n" + Join(lines, "\n");
      && StartsWith(r, body + "\n\n" + FooterOpen)
      && |r| > |body| + 2 + |FooterOpen|
      && r[..|body|] == body
  {
    var tail := Join(lines[1..], "\n");
    assert Join(lines, "\n") == FooterOpen + "\n" + tail;
    var pre := body + "\n\n" + FooterOpen;
    var r := body + "\n\n" + Join(lines, "\n");
    assert r == pre + ("\n" + tail);
    assert r[..|pre|] == pre;
    assert r[..|body|] == pre[..|body|] == body;
  }

  /** When the output was cut, every footer line is present, in order. */
  lemma FooterLines(output: string, limit: nat, timedOut: bool, aborted: bool, timeout: nat)
    requires |output| > limit || timedOut || aborted
    ensures var notes := Notes(|output| > limit, timedOut, aborted, limit, timeout);
      var body := if |output| > limit then output[..limit] else output;
      && |body| <= limit
      && FinalOutput(output, limit, timedOut, aborted, timeout) == body + "\n\n" + Join([FooterOpen] + notes + [FooterClose], "\n")
      && (|output| > limit ==> notes[0] == TruncatedNote(limit))
      && (aborted ==> notes[|notes| - 1] == AbortNote)
      && (timedOut && !aborted ==> notes[|notes| - 1] == TimeoutNote(timeout))
  {
  }

  // The whole tool

  datatype Outcome =
    | Done(title: string, output: string, exit: int)
    | Thrown(message: string)
    | Refused(ask: Ask)   // a permission request was rejected
    | Waiting             // the process has not ended within the events given

  /** The working directory: `params.workdir || Instance.directory`. */
  function WorkingDirectory(workdir: Option<string>, instanceDir: string): string {
    if workdir.Some? && workdir.value != "" then workdir.value else instanceDir
  }

  /** `execute`, with its inputs spelled out: the configured limits, the
      parameters, the parse (`None` when it fails), the answers to the
      permission requests, which PTY attempts succeed, whether the call was
      already aborted, and the process events. */
  method Execute(h: Host, maxFlag: Option<nat>, timeoutFlag: Option<nat>, instanceDir: string,
                 command: string, timeoutParam: Option<int>, workdir: Option<string>,
                 tree: Option<seq<Option<Node>>>, granted: Ask -> bool,
                 spawns: nat -> bool, preAborted: bool, events: seq<Event>)
    returns (r: Outcome)
    ensures timeoutParam.Some? && timeoutParam.value < 0 ==> r == Thrown(TimeoutError(timeoutParam.value))
    ensures (timeoutParam.None? || timeoutParam.value >= 0) && tree.None? ==> r == Thrown("Failed to parse command")
    ensures r.Refused? ==> tree.Some? && !granted(r.ask)
    ensures (timeoutParam.None? || timeoutParam.value >= 0) && tree.Some? ==>
      var asks := PermissionAsks(h, Analyze(h, WorkingDirectory(workdir, instanceDir), tree.value));
      var w := Replay(Started(preAborted), events, PtyObtained(spawns), Configured(maxFlag, DefaultMaxOutputLength));
      && (FirstRefused(asks, granted).Some? ==> r == Refused(asks[FirstRefused(asks, granted).value]))
      && (FirstRefused(asks, granted).None? && w.ended.None? ==> r == Waiting)
      && (FirstRefused(asks, granted).None? && w.ended.Some? && w.ended.value.Err? ==> r == Thrown(w.ended.value.error))
      && (FirstRefused(asks, granted).None? && w.ended.Some? && w.ended.value.Ok? ==> r.Done?)
    ensures r.Done? ==> r.title == command
    ensures r.Done? && tree.Some? ==> forall a :: a in PermissionAsks(h, Analyze(h, WorkingDirectory(workdir, instanceDir), tree.value)) ==> granted(a)
    ensures r.Done? ==>
      && ResolveTimeout(timeoutParam, Configured(timeoutFlag, DefaultTimeoutMs)).Ok?
      && var limit := Configured(maxFlag, DefaultMaxOutputLength);
         var w := Replay(Started(preAborted), events, PtyObtained(spawns), limit);
         && w.ended.Some? && w.ended.value.Ok?
         && r.exit == w.exitCode
         && r.output == FinalOutput(w.output, limit, w.timedOut, w.aborted,
                                    ResolveTimeout(timeoutParam, Configured(timeoutFlag, DefaultTimeoutMs)).value)
  {
    var limit := Configured(maxFlag, DefaultMaxOutputLength);
    var defaultTimeout := Configured(timeoutFlag, DefaultTimeoutMs);
    var cwd := WorkingDirectory(workdir, instanceDir);
    var timeout;
    match ResolveTimeout(timeoutParam, defaultTimeout) {
      case Err(message) => return Thrown(message);
      case Ok(t) => timeout := t;
    }
    if tree.None? {
      return Thrown("Failed to parse command");
    }
    var a := AnalyzeCommands(h, cwd, tree.value);
    var asks := PermissionAsks(h, a);
    match FirstRefused(asks, granted) {
      case Some(k) => return Refused(asks[k]);
      case None =>
    }
    r := RunCommand(command, limit, timeout, spawns, preAborted, events);
  }

  /** The part of `execute` after the permissions: spawn, watch, format. */
  method RunCommand(command: string, limit: nat, timeout: nat, spawns: nat -> bool, preAborted: bool, events: seq<Event>)
    returns (r: Outcome)
    ensures !r.Refused?
    ensures var w := Replay(Started(preAborted), events, PtyObtained(spawns), limit);
      && (w.ended.None? ==> r == Waiting)
      && (w.ended.Some? && w.ended.value.Err? ==> r == Thrown(w.ended.value.error))
      && (w.ended.Some? && w.ended.value.Ok? ==> r.Done?)
    ensures r.Done? ==>
      && r.title == command
      && var w := Replay(Started(preAborted), events, PtyObtained(spawns), limit);
         && w.ended.Some? && w.ended.value.Ok?
         && r.exit == w.exitCode
         && r.output == FinalOutput(w.output, limit, w.timedOut, w.aborted, timeout)
  {
    var usedPty, attempts, pauses := SpawnWithRetries(spawns);
    assert usedPty == PtyObtained(spawns);
    var w := WatchProcess(usedPty, preAborted, events, limit);
    match w.ended {
      case None => return Waiting;
      case Some(Err(message)) => return Thrown(message);
      case Some(Ok(_)) =>
    }
    var output := Finish(w.output, limit, w.timedOut, w.aborted, timeout);
    r := Done(command, output, w.exitCode);
  }
}
