/** What `main` does with the pieces: parse the command line, expand the
    input file into a text that starts with the fixed header, and decide
    where that text goes and what is reported. */
module Run {
  import opened Text
  import opened Errors
  import opened Platform
  import opened Directive
  import opened Tree
  import opened Options
  import opened Expander
  import opened IncludeParser
  import ExpanderFacts

  /** A C++ line comment holding `text`. */
  function Comment(text: string): string {
    "// " + text
  }

  /** The lines of `header`. */
  const HeaderLines: seq<string> := [
    Comment("This file is generated automatically by SingleInclude"),
    Comment("It's suggested not to edit anything below"),
    Comment("If you found any issue, please report to https://github.com/dragon-archer/SingleInclude/issues")]

  /** `header`: the three comment lines, each ended by a newline. */
  const Header: string := Terminated(HeaderLines)

  /** The header is three comment lines, and ends with a newline, so the
      input file's first line starts a line of its own. */
  lemma HeaderIsComment()
    ensures |HeaderLines| == 3 && Header == Terminated(HeaderLines)
    ensures forall k :: 0 <= k < |HeaderLines| ==> "// " <= HeaderLines[k]
    ensures |Header| > 0 && Header[|Header| - 1] == '\n'
  {
    var t := HeaderLines[2] + "\n";
    assert Terminated(HeaderLines[2..]) == t;
    assert Header == HeaderLines[0] + "\n" + (HeaderLines[1] + "\n" + t);
  }

  /** How a run ends: help printed, the command line refused, the command
      line in the case the tool leaves undefined, the expansion failed, the
      fuel bound reached (a case of this model only), or the generated text
      with the settings and the dependency tree. */
  datatype Outcome =
    | Finished
    | ConfigFailed(error: ErrorState)
    | ConfigUndefined
    | ExpandFailed(error: ErrorState)
    | Exhausted
    | Generated(settings: Settings, content: string, root: FileNode)

  /** The context of the root expansion. */
  function RootEnv(fs: FileSystem, s: Settings): Env {
    Env(fs, s.includePaths, s.file, s.includeAll)
  }

  /** `config.file`: the input file, expanded, reached by no directive. */
  function RootNode(s: Settings): (root: FileNode)
    ensures root.name == s.file && root.includeFiles == [] && root.state == Expended && !root.isAngle
  {
    FileNode(s.file, [], Expended, false)
  }

  /** What `parse_config` returns for the argument list `argv`. */
  function Parse(fs: FileSystem, argv: seq<string>): (p: ParseResult)
    ensures argv == [] ==> p == Rejected(ErrorState(E_TOO_LESS_ARGUMENTS, ""))
    ensures argv != [] ==> p == Configure(fs, argv, Default)
  {
    if argv == [] then Rejected(ErrorState(E_TOO_LESS_ARGUMENTS, "")) else Configure(fs, argv, Default)
  }

  /** The whole run on the argument list `argv` (without the program name). */
  function Main(fs: FileSystem, argv: seq<string>, fuel: nat): (o: Outcome)
    ensures o.Generated? ==>
              Header <= o.content && Parse(fs, argv) == Parsed(o.settings) &&
              Extends(RootNode(o.settings), o.root)
    ensures o.ExpandFailed? ==> Parse(fs, argv).Parsed? && o.error == FileError(Parse(fs, argv).settings.file)
    ensures o.ConfigFailed? ==> Parse(fs, argv) == Rejected(o.error) && o.error.e != E_FINISH
    ensures o.Exhausted? ==> Parse(fs, argv).Parsed? && Parse(fs, argv).settings.includeAll
  {
    match Parse(fs, argv)
    case Undefined => ConfigUndefined
    case Rejected(e) => if e.e == E_FINISH then Finished else ConfigFailed(e)
    case Parsed(s) =>
      var r := ExpandFile(RootEnv(fs, s), RootNode(s), Header, {}, fuel);
      match r.status
      case Ok => Generated(s, r.out, r.node)
      case Failed(e) => ExpandFailed(e)
      case OutOfFuel => Exhausted
  }

  /** The value `main` returns, for the outcomes the tool defines. */
  function ExitCode(o: Outcome): (n: nat)
    requires !o.ConfigUndefined? && !o.Exhausted?
    requires o.ConfigFailed? || o.ExpandFailed? ==> o.error.e != E_NO_ERROR
    ensures n == 0 <==> o.Finished? || o.Generated?
    ensures o.ConfigFailed? || o.ExpandFailed? ==> n == Code(o.error.e)
  {
    match o
    case Finished => Code(E_NO_ERROR)
    case ConfigFailed(e) => Code(e.e)
    case ExpandFailed(e) => Code(e.e)
    case Generated(_, _, _) => Code(E_NO_ERROR)
  }

  /** Where the generated text goes. */
  datatype Target = Nowhere | Stdout | OutFile(path: Path)

  /** A dry run writes nothing; otherwise the text goes to the output file
      when one was named and to the console when none was. */
  function Destination(s: Settings): (t: Target)
    ensures s.dryRun <==> t.Nowhere?
    ensures t.OutFile? ==> t.path == s.outFileName && s.outFileName != ""
    ensures t.Stdout? <==> !s.dryRun && s.outFileName == ""
  {
    if s.dryRun then Nowhere else if s.outFileName == "" then Stdout else OutFile(s.outFileName)
  }

  /** The tree text printed after a run with `--tree` and without
      `--verbose`: the `dump_tree` of the root at depth 0. */
  function TreeReport(s: Settings, root: FileNode): (t: string)
    ensures !s.tree || s.verbose ==> t == ""
    ensures s.tree && !s.verbose ==> t == RenderEntries(PreOrder(root, 0))
  {
    if s.tree && !s.verbose then DumpTree(root, 0) else ""
  }

  /** `main` up to the point where the text is written: `parse_config`,
      then `parse_include` on a fresh configuration with the header as the
      initial content. */
  method Generate(fs: FileSystem, argv: seq<string>, fuel: nat) returns (o: Outcome)
    ensures o == Main(fs, argv, fuel)
  {
    var parsed := ParseConfig(fs, argv);
    match parsed
    case Undefined =>
      return ConfigUndefined;
    case Rejected(e) =>
      if e.e == E_FINISH {
        return Finished;
      }
      return ConfigFailed(e);
    case Parsed(s) =>
      var config := new Config(RootEnv(fs, s));
      var content := Header;
      var status, root, out, _ := ParseInclude(config, RootNode(s), content, fuel);
      match status
      case Ok =>
        return Generated(s, out, root);
      case Failed(e) =>
        return ExpandFailed(e);
      case OutOfFuel =>
        return Exhausted;
  }

  /* Properties of a run. */

  /** With include_all off the fuel plays no part: the run never ends
      Exhausted and is the same for every fuel. */
  lemma FuelUnused(fs: FileSystem, argv: seq<string>, f1: nat, f2: nat)
    requires Parse(fs, argv).Parsed? ==> !Parse(fs, argv).settings.includeAll
    ensures !Main(fs, argv, f1).Exhausted?
    ensures Main(fs, argv, f1) == Main(fs, argv, f2)
  {
    if Parse(fs, argv).Parsed? {
      var s := Parse(fs, argv).settings;
      ExpanderFacts.FuelIrrelevantFile(RootEnv(fs, s), RootNode(s), Header, {}, f1, f2);
    }
  }

  /** An input file without directives is copied after the header, with
      the extra empty line the read loop gives the end of the file, and
      its tree is the root alone. */
  lemma PlainInputCopied(fs: FileSystem, argv: seq<string>, fuel: nat)
    requires Parse(fs, argv).Parsed?
    requires var s := Parse(fs, argv).settings;
             CanOpen(fs, s.file) && ExpanderFacts.Plain(Split(fs.contents[s.file]))
    ensures var s := Parse(fs, argv).settings;
            Main(fs, argv, fuel) == Generated(s, Header + fs.contents[s.file] + "\n", RootNode(s))
  {
    var s := Parse(fs, argv).settings;
    ExpanderFacts.PassThrough(RootEnv(fs, s), RootNode(s), Header, {}, fuel);
  }

  /** An input file that cannot be opened ends the run with E_FILE_ERROR,
      exit code 6, and a message naming it. */
  lemma UnopenableInput(fs: FileSystem, argv: seq<string>, fuel: nat)
    requires Parse(fs, argv).Parsed? && !CanOpen(fs, Parse(fs, argv).settings.file)
    ensures Main(fs, argv, fuel) == ExpandFailed(ErrorState(E_FILE_ERROR, "Cannot open file " + Parse(fs, argv).settings.file))
    ensures ExitCode(Main(fs, argv, fuel)) == 6
  {
  }

  /** A command line that names no input file leaves the empty name, and
      when no file of that name can be opened the run fails like any
      unopenable input, with the message "Cannot open file " and exit code 6. */
  lemma NoInputFile(fs: FileSystem, argv: seq<string>, fuel: nat)
    requires Parse(fs, argv).Parsed? && Parse(fs, argv).settings.file == ""
    requires "" !in fs.contents
    ensures Main(fs, argv, fuel) == ExpandFailed(ErrorState(E_FILE_ERROR, "Cannot open file "))
    ensures ExitCode(Main(fs, argv, fuel)) == 6
  {
    UnopenableInput(fs, argv, fuel);
    assert "Cannot open file " + "" == "Cannot open file ";
  }

  /** With include_all off a run opens each file at most once: the number
      of successful opens is the number of distinct files in the ledger,
      all of them files there are. */
  lemma RunOpensEachFileOnce(fs: FileSystem, argv: seq<string>, fuel: nat)
    requires Parse(fs, argv).Parsed? && !Parse(fs, argv).settings.includeAll
    ensures var s := Parse(fs, argv).settings;
            var r := ExpandFile(RootEnv(fs, s), RootNode(s), Header, {}, fuel);
            r.expansions == |r.ledger| && r.ledger <= fs.contents.Keys && r.expansions <= |fs.contents.Keys|
  {
    var s := Parse(fs, argv).settings;
    ExpanderFacts.OpensEachFileOnce(RootEnv(fs, s), RootNode(s), Header, fuel);
  }

  /** Every run that the tool defines has an exit code. */
  lemma ExitCodeDefined(fs: FileSystem, argv: seq<string>, fuel: nat)
    requires !Main(fs, argv, fuel).ConfigUndefined? && !Main(fs, argv, fuel).Exhausted?
    ensures var o := Main(fs, argv, fuel);
            o.ConfigFailed? || o.ExpandFailed? ==> o.error.e != E_NO_ERROR
  {
  }
}
