/** The recursive expander `parse_include`, stated as functions of the
    state it changes.

    One call of `parse_include(config, file, out)` opens `file.name`, enters
    it into the ledger `config.includedFiles`, and reads the file line by
    line: a plain line is copied to `out`; a directive is resolved against
    the search list, each directory whose joined path is a regular file
    being a hit that pushes the reused node `temp` onto `file`'s children
    (expanding it into `content` first unless it is already in the ledger),
    and then one text for the directive is appended to `out`.

    The functions below thread that state unchanged in shape: the text
    accumulated so far, the node whose children grow, the ledger, and the
    status. ExpandFile is one call, ScanLines the read loop, ExpandLine the
    body of that loop, and Resolve the loop over the search list. Each
    result also counts the expansions begun (successful opens), which the
    tool does not record but which its termination argument is about.

    The recursion is bounded by the ledger: with include_all off, a file is
    expanded only if it is not in the ledger, and entering it leaves fewer
    openable files outside. With include_all on the tool has no bound; here
    each expansion then consumes one unit of `fuel`, and running out is the
    status OutOfFuel. */
module Expander {
  import opened Text
  import opened Errors
  import opened Platform
  import opened Directive
  import opened Tree
  import Ledger

  /** What `parse_include` reads besides its arguments: the file system,
      the configured include paths in order, the root file's name (which
      every open failure reports) and the flag include_all. */
  datatype Env = Env(fs: FileSystem, includePaths: seq<Path>, rootName: Path, includeAll: bool)

  /** The outcome of a call: no error, `E_FILE_ERROR`, or the fuel bound
      reached (a status of this model only). */
  datatype Status = Ok | Failed(error: ErrorState) | OutOfFuel

  /** The state one file's read loop changes. */
  datatype Scan = Scan(status: Status, out: string, node: FileNode, ledger: set<Path>, expansions: nat)

  /** The state the search-list loop of one directive changes. */
  datatype Search = Search(status: Status, temp: FileNode, found: bool, content: string,
                           node: FileNode, ledger: set<Path>, expansions: nat)

  /** The files that can be opened. */
  function Files(env: Env): set<Path> {
    env.fs.contents.Keys
  }

  /** The search list for the directives of `file`: the configured include
      paths, preceded by the file's own directory unless the file itself was
      reached through an angle-bracket include. */
  function SearchPaths(env: Env, file: FileNode): (sp: seq<Path>)
    ensures file.isAngle ==> sp == env.includePaths
    ensures !file.isAngle ==>
              |sp| == |env.includePaths| + 1 && sp[0] == env.fs.parentPath(file.name) && sp[1..] == env.includePaths
  {
    if file.isAngle then env.includePaths else [env.fs.parentPath(file.name)] + env.includePaths
  }

  function PushChild(node: FileNode, child: FileNode): FileNode {
    node.(includeFiles := node.includeFiles + [child])
  }

  /** `after` is `before` with children appended and nothing else changed. */
  predicate Extends(before: FileNode, after: FileNode) {
    after.name == before.name && after.state == before.state &&
    after.isAngle == before.isAngle && before.includeFiles <= after.includeFiles
  }

  /** The node a directive starts with: `file_t temp`, marked angle when the
      line matches the system-include pattern. */
  function InitialTemp(line: string): FileNode {
    FileNode("", [], Expended, IsSystemInclude(line))
  }

  /** One call `parse_include(config, file, out)`. */
  function ExpandFile(env: Env, file: FileNode, out: string, ledger: set<Path>, fuel: nat): (r: Scan)
    requires env.includeAll || file.name !in ledger
    ensures ledger <= r.ledger <= ledger + Files(env)
    ensures out <= r.out
    ensures Extends(file, r.node)
    ensures CanOpen(env.fs, file.name) ==> file.name in r.ledger
    ensures r.status.Failed? ==> r.status.error == FileError(env.rootName)
    ensures !env.includeAll ==> !r.status.OutOfFuel?
    decreases fuel, |Files(env) - ledger|, if env.includeAll then 2 else 0
  {
    if !CanOpen(env.fs, file.name) then
      Scan(Failed(FileError(env.rootName)), out, file, ledger, 0)
    else
      var entered := ledger + {file.name};
      Ledger.EnterShrinks(Files(env), ledger, file.name);
      var lines := Split(env.fs.contents[file.name]);
      ScanLines(env, SearchPaths(env, file), lines, Scan(Ok, out, file, entered, 1), fuel)
  }

  /** The read loop: every remaining line in order, stopping at an error. */
  function ScanLines(env: Env, sp: seq<Path>, lines: seq<string>, st: Scan, fuel: nat): (r: Scan)
    ensures st.ledger <= r.ledger <= st.ledger + Files(env)
    ensures st.out <= r.out
    ensures Extends(st.node, r.node)
    ensures r.status.Failed? ==> r.status == st.status || r.status.error == FileError(env.rootName)
    ensures !env.includeAll ==> (r.status.OutOfFuel? ==> st.status.OutOfFuel?)
    decreases fuel, |Files(env) - st.ledger|, 1, |lines|
  {
    if lines == [] || !st.status.Ok? then st
    else
      var st' := ExpandLine(env, sp, lines[0], st, fuel);
      Ledger.OutsideShrinks(Files(env), st.ledger, st'.ledger);
      ScanLines(env, sp, lines[1..], st', fuel)
  }

  /** The loop body for one line. */
  function ExpandLine(env: Env, sp: seq<Path>, line: string, st: Scan, fuel: nat): (r: Scan)
    requires st.status.Ok?
    ensures st.ledger <= r.ledger <= st.ledger + Files(env)
    ensures st.out <= r.out
    ensures Extends(st.node, r.node)
    ensures r.status.Failed? ==> r.status.error == FileError(env.rootName)
    ensures !env.includeAll ==> !r.status.OutOfFuel?
    decreases fuel, |Files(env) - st.ledger|, 1, 0, |sp| + 1
  {
    if !IsInclude(line) then
      st.(out := st.out + line + "\n")
    else
      var name := IncludeName(line);
      var s := Resolve(env, name, sp, Search(Ok, InitialTemp(line), false, "", st.node, st.ledger, st.expansions), fuel);
      AfterSearch(st, line, name, s)
  }

  /** What follows the search loop of a directive: an error is returned as
      is; a name found nowhere gets a NotFound child and the line is copied;
      otherwise the text of the last hit's outcome is appended. */
  function AfterSearch(st: Scan, line: string, name: string, s: Search): (r: Scan)
    ensures r.ledger == s.ledger && r.expansions == s.expansions
    ensures st.out <= r.out
    ensures Extends(s.node, r.node)
    ensures r.status == s.status
  {
    var st' := st.(status := s.status, node := s.node, ledger := s.ledger, expansions := s.expansions);
    if !s.status.Ok? then
      st'
    else if !s.found then
      st'.(out := st.out + line + "\n", node := PushChild(s.node, s.temp.(name := name, state := NotFound)))
    else if s.temp.state == Expended then
      st'.(out := st.out + "// " + line + "\n" + s.content + "// End " + line + "\n")
    else
      st'.(out := st.out + "// " + line + " (omitted because it has been expended)\n")
  }

  /** The loop over the remaining search directories `ps` for `name`. */
  function Resolve(env: Env, name: string, ps: seq<Path>, s: Search, fuel: nat): (r: Search)
    ensures s.ledger <= r.ledger <= s.ledger + Files(env)
    ensures s.content <= r.content
    ensures Extends(s.node, r.node)
    ensures r.temp.isAngle == s.temp.isAngle
    ensures s.found ==> r.found
    ensures r.status.Failed? ==> r.status == s.status || r.status.error == FileError(env.rootName)
    ensures !env.includeAll ==> (r.status.OutOfFuel? ==> s.status.OutOfFuel?)
    decreases fuel, |Files(env) - s.ledger|, 1, 0, |ps|, 2
  {
    if ps == [] || !s.status.Ok? then s
    else if !env.fs.isRegularFile(env.fs.join(ps[0], name)) then
      Resolve(env, name, ps[1..], s, fuel)
    else
      ResolveHit(env, name, ps, s, fuel)
  }

  /** One iteration of that loop whose joined path is a regular file. */
  function ResolveHit(env: Env, name: string, ps: seq<Path>, s: Search, fuel: nat): (r: Search)
    requires ps != [] && s.status.Ok?
    ensures s.ledger <= r.ledger <= s.ledger + Files(env)
    ensures s.content <= r.content
    ensures Extends(s.node, r.node)
    ensures r.temp.isAngle == s.temp.isAngle
    ensures s.found ==> r.found
    ensures r.status.Failed? ==> r.status == s.status || r.status.error == FileError(env.rootName)
    ensures !env.includeAll ==> (r.status.OutOfFuel? ==> s.status.OutOfFuel?)
    decreases fuel, |Files(env) - s.ledger|, 1, 0, |ps|, 1
  {
    var temp := s.temp.(name := env.fs.canonical(env.fs.join(ps[0], name)));
    if !env.includeAll && temp.name in s.ledger then
      var temp' := temp.(state := AlreadyIncluded);
      Resolve(env, name, ps[1..], s.(temp := temp', found := true, node := PushChild(s.node, temp')), fuel)
    else if env.includeAll && fuel == 0 then
      s.(status := OutOfFuel, temp := temp.(state := Expended), found := true)
    else
      ExpandHit(env, name, ps, s, temp.(state := Expended), fuel)
  }

  /** A hit not yet in the ledger (or any hit under include_all): expand it
      into the content, push it unless that failed, and go on. */
  function ExpandHit(env: Env, name: string, ps: seq<Path>, s: Search, temp: FileNode, fuel: nat): (r: Search)
    requires ps != [] && s.status.Ok?
    requires env.includeAll ==> fuel > 0
    requires env.includeAll || temp.name !in s.ledger
    requires temp.isAngle == s.temp.isAngle
    ensures s.ledger <= r.ledger <= s.ledger + Files(env)
    ensures s.content <= r.content
    ensures Extends(s.node, r.node)
    ensures r.temp.isAngle == s.temp.isAngle
    ensures s.found ==> r.found
    ensures r.status.Failed? ==> r.status == s.status || r.status.error == FileError(env.rootName)
    ensures !env.includeAll ==> (r.status.OutOfFuel? ==> s.status.OutOfFuel?)
    decreases fuel, |Files(env) - s.ledger|, 1, 0, |ps|, 0
  {
    var f := ExpandFile(env, temp, s.content, s.ledger, if env.includeAll then fuel - 1 else fuel);
    var s' := s.(temp := f.node, found := true, content := f.out, ledger := f.ledger,
                 expansions := s.expansions + f.expansions);
    if !f.status.Ok? then
      s'.(status := f.status)
    else
      Ledger.OutsideShrinks(Files(env), s.ledger, f.ledger);
      Resolve(env, name, ps[1..], s'.(node := PushChild(s.node, f.node)), fuel)
  }
}
