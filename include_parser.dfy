/** `parse_include` as the tool runs it: a method that appends to the
    output text and to the node's children, inserts into the shared ledger
    of the configuration, reads the file with `getline` until the end of
    the stream, and, for a directive, reuses one node `temp` across the
    loop over the search directories. Each method is proved to compute
    exactly what the functions of module Expander describe. */
module IncludeParser {
  import opened Text
  import opened Errors
  import opened Platform
  import opened Directive
  import opened Tree
  import opened Expander
  import opened ExpanderSteps
  import Ledger

  /** The part of `state_t` that `parse_include` reads and changes: what
      it reads (file system, include paths, root name, include_all) and the
      ledger `includedFiles`, which every nested call shares. */
  class Config {
    const env: Env
    var includedFiles: set<Path>

    constructor (env: Env)
      ensures this.env == env && includedFiles == {}
    {
      this.env := env;
      includedFiles := {};
    }
  }

  /** What is left to read of a stream with unread text `fin`. */
  function Unread(fin: string, atEnd: bool): seq<string> {
    if atEnd then [] else Split(fin)
  }

  /** `parse_include(config, file, out)`: returns the status and the new
      values of `file` and `out`; `count` is the number of files opened,
      kept for the proof only. */
  method ParseInclude(config: Config, file: FileNode, out: string, fuel: nat)
      returns (status: Status, file': FileNode, out': string, ghost count: nat)
    requires config.env.includeAll || file.name !in config.includedFiles
    modifies config
    ensures var r := ExpandFile(config.env, file, out, old(config.includedFiles), fuel);
            status == r.status && file' == r.node && out' == r.out && config.includedFiles == r.ledger &&
            count == r.expansions
    decreases fuel, |Files(config.env) - config.includedFiles|, if config.env.includeAll then 2 else 0
  {
    var env := config.env;
    ghost var ledger0 := config.includedFiles;
    if !CanOpen(env.fs, file.name) {
      return Failed(FileError(env.rootName)), file, out, 0;
    }
    config.includedFiles := config.includedFiles + {file.name};
    Ledger.EnterShrinks(Files(env), ledger0, file.name);
    var searchPaths := env.includePaths;
    if !file.isAngle {
      searchPaths := [env.fs.parentPath(file.name)] + searchPaths;
    }
    assert searchPaths == SearchPaths(env, file);
    ghost var final := ExpandFile(env, file, out, ledger0, fuel);
    var fin := env.fs.contents[file.name];
    var atEnd := false;
    file', out', count := file, out, 1;
    while !atEnd
      invariant ledger0 + {file.name} <= config.includedFiles
      invariant ScanLines(env, searchPaths, Unread(fin, atEnd), Scan(Ok, out', file', config.includedFiles, count), fuel) == final
      decreases |fin| + (if atEnd then 0 else 1)
    {
      var (line, rest, hitEnd) := GetLine(fin);
      ghost var st := Scan(Ok, out', file', config.includedFiles, count);
      ScanStep(env, searchPaths, line, Unread(rest, hitEnd), st, fuel);
      if !IsInclude(line) {
        out' := out' + line + "\n";
      } else {
        Ledger.OutsideShrinks(Files(env), ledger0 + {file.name}, config.includedFiles);
        var lineStatus;
        lineStatus, file', out', count := ParseDirective(config, searchPaths, line, file', out', fuel, count);
        if lineStatus != Ok {
          ScanStops(env, searchPaths, Unread(rest, hitEnd), ExpandLine(env, searchPaths, line, st, fuel), fuel);
          return lineStatus, file', out', count;
        }
      }
      fin, atEnd := rest, hitEnd;
    }
    status := Ok;
  }

  /** The body of the read loop for a directive line. */
  method ParseDirective(config: Config, sp: seq<Path>, line: string, file: FileNode, out: string, fuel: nat,
                        ghost count0: nat)
      returns (status: Status, file': FileNode, out': string, ghost count: nat)
    requires IsInclude(line)
    modifies config
    ensures var r := ExpandLine(config.env, sp, line, Scan(Ok, out, file, old(config.includedFiles), count0), fuel);
            status == r.status && file' == r.node && out' == r.out && config.includedFiles == r.ledger &&
            count == r.expansions
    decreases fuel, |Files(config.env) - config.includedFiles|, 1, 0, 3
  {
    var temp := FileNode("", [], Expended, false);
    if IsSystemInclude(line) {
      temp := temp.(isAngle := true);
    }
    assert temp == InitialTemp(line);
    var includeFile := ExtractIncludeName(line);
    var found, content;
    status, temp, found, content, file', count := SearchDirectories(config, includeFile, sp, temp, file, fuel, count0);
    if status != Ok {
      return status, file', out, count;
    }
    if !found {
      temp := temp.(name := includeFile, state := NotFound);
      file' := PushChild(file', temp);
      out' := out + line + "\n";
    } else if temp.state == Expended {
      out' := out + "// " + line + "\n";
      out' := out' + content;
      out' := out' + "// End " + line + "\n";
    } else {
      out' := out + "// " + line + " (omitted because it has been expended)\n";
    }
  }

  /** The loop over the search directories for `name`, starting from the
      node `temp0` and the including node `file`. */
  method SearchDirectories(config: Config, name: string, sp: seq<Path>, temp0: FileNode, file: FileNode, fuel: nat,
                           ghost count0: nat)
      returns (status: Status, temp: FileNode, found: bool, content: string, file': FileNode, ghost count: nat)
    modifies config
    ensures var r := Resolve(config.env, name, sp, Search(Ok, temp0, false, "", file, old(config.includedFiles), count0), fuel);
            status == r.status && temp == r.temp && found == r.found && content == r.content &&
            file' == r.node && config.includedFiles == r.ledger && count == r.expansions
    decreases fuel, |Files(config.env) - config.includedFiles|, 1, 0, 2
  {
    var env := config.env;
    ghost var ledger0 := config.includedFiles;
    ghost var final := Resolve(env, name, sp, Search(Ok, temp0, false, "", file, ledger0, count0), fuel);
    status, temp, found, content, file', count := Ok, temp0, false, "", file, count0;
    for i := 0 to |sp|
      invariant status == Ok && ledger0 <= config.includedFiles
      invariant Resolve(env, name, sp[i..], Search(Ok, temp, found, content, file', config.includedFiles, count), fuel) == final
    {
      assert sp[i..][0] == sp[i] && sp[i..][1..] == sp[i + 1..];
      Ledger.OutsideShrinks(Files(env), ledger0, config.includedFiles);
      status, temp, found, content, file', count := VisitDirectory(config, name, sp[i..], temp, found, content, file', fuel, count);
      if status != Ok {
        return;
      }
    }
    assert sp[|sp|..] == [];
  }

  /** One iteration of that loop, on the first of the remaining directories
      `ps`: a hit renames `temp`, marks it already included or expands it,
      and pushes it onto the including node. */
  method VisitDirectory(config: Config, name: string, ps: seq<Path>, temp0: FileNode, found0: bool, content0: string,
                        file: FileNode, fuel: nat, ghost count0: nat)
      returns (status: Status, temp: FileNode, found: bool, content: string, file': FileNode, ghost count: nat)
    requires ps != []
    modifies config
    ensures old(config.includedFiles) <= config.includedFiles
    ensures var s := Search(Ok, temp0, found0, content0, file, old(config.includedFiles), count0);
            var s' := Search(status, temp, found, content, file', config.includedFiles, count);
            Resolve(config.env, name, ps, s, fuel) == if status.Ok? then Resolve(config.env, name, ps[1..], s', fuel) else s'
    decreases fuel, |Files(config.env) - config.includedFiles|, 1, 0, 1
  {
    var env := config.env;
    ghost var s := Search(Ok, temp0, found0, content0, file, config.includedFiles, count0);
    status, temp, found, content, file', count := Ok, temp0, found0, content0, file, count0;
    var canonicalFile := env.fs.join(ps[0], name);
    if !env.fs.isRegularFile(canonicalFile) {
      SearchSkip(env, name, ps, s, fuel);
      return;
    }
    canonicalFile := env.fs.canonical(canonicalFile);
    found := true;
    temp := temp.(name := canonicalFile);
    if !env.includeAll && canonicalFile in config.includedFiles {
      temp := temp.(state := AlreadyIncluded);
      SearchAlready(env, name, ps, s, fuel);
    } else {
      temp := temp.(state := Expended);
      if env.includeAll && fuel == 0 {
        SearchOutOfFuel(env, name, ps, s, fuel);
        return OutOfFuel, temp, found, content, file', count;
      }
      SearchExpand(env, name, ps, s, fuel);
      status, temp, content, file', count := ExpandFound(config, name, ps, temp, content, file', fuel, s);
      return;
    }
    file' := PushChild(file', temp);
  }

  /** A hit to expand: the nested `parse_include` on `temp`, into the
      content, then the push unless it failed. */
  method ExpandFound(config: Config, name: string, ps: seq<Path>, temp0: FileNode, content0: string, file: FileNode,
                     fuel: nat, ghost s: Search)
      returns (status: Status, temp: FileNode, content: string, file': FileNode, ghost count: nat)
    requires ps != [] && s.status.Ok? && s.ledger == config.includedFiles
    requires s.content == content0 && s.node == file
    requires config.env.includeAll ==> fuel > 0
    requires config.env.includeAll || temp0.name !in config.includedFiles
    requires temp0.isAngle == s.temp.isAngle
    modifies config
    ensures s.ledger <= config.includedFiles
    ensures var s' := Search(status, temp, true, content, file', config.includedFiles, count);
            ExpandHit(config.env, name, ps, s, temp0, fuel) == if status.Ok? then Resolve(config.env, name, ps[1..], s', fuel) else s'
    decreases fuel, |Files(config.env) - config.includedFiles|, 1, 0, 0
  {
    var env := config.env;
    var nested := if env.includeAll then fuel - 1 else fuel;
    ghost var expanded;
    status, temp, content, expanded := ParseInclude(config, temp0, content0, nested);
    count := s.expansions + expanded;
    file' := file;
    if status != Ok {
      HitFailed(env, name, ps, s, temp0, fuel, nested);
      return;
    }
    HitExpanded(env, name, ps, s, temp0, fuel, nested);
    file' := PushChild(file', temp);
  }
}
