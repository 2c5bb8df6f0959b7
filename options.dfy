/** The command line: `parse_option`, which applies one option, and
    `parse_config`, the loop that pops arguments off the list until it is
    empty or an option stops it. */
module Options {
  import Text
  import opened Errors
  import opened Platform

  /** `option_t`. */
  datatype OptionKind = IncludeAll | Dry | Help | IncludePath | Out | Tree | Verbose

  /** `short_options`: the letter after a single '-'. */
  const ShortOptions: map<char, OptionKind> :=
    map['a' := IncludeAll, 'd' := Dry, 'h' := Help, 'I' := IncludePath, 'o' := Out, 't' := Tree, 'v' := Verbose]

  /** `long_options`: the word after "--". */
  const LongOptions: map<string, OptionKind> :=
    map["all" := IncludeAll, "dry" := Dry, "help" := Help, "include" := IncludePath,
        "out" := Out, "tree" := Tree, "verbose" := Verbose]

  /** What the command line sets: the input file (empty until a positional
      argument names one), the output file name, the include paths in
      order, and the four flags the tool keeps as globals. */
  datatype Settings = Settings(file: Path, outFileName: Path, includePaths: seq<Path>,
                               includeAll: bool, dryRun: bool, tree: bool, verbose: bool)

  const Default := Settings("", "", [], false, false, false, false)

  /** The result of applying an option or an argument: go on with new
      settings and the rest of the list, stop with an error (E_FINISH for
      help), or the case the tool leaves undefined: `-I`/`-o` with nothing
      attached as the last argument, where it reads the front of an empty
      list. */
  datatype Step = Next(settings: Settings, args: seq<string>) | Stop(error: ErrorState) | MissingArgument

  /** The outcome of `parse_config`. */
  datatype ParseResult = Parsed(settings: Settings) | Rejected(error: ErrorState) | Undefined

  /** `arg[i]` on a `std::string`: the character, or '\0' at the end. */
  function CharAt(s: string, i: nat): (c: char)
    ensures i < |s| ==> c == s[i]
    ensures i >= |s| ==> c == '\0'
  {
    if i < |s| then s[i] else '\0'
  }

  /** The argument an option with an argument takes: the attached text when
      there is some, otherwise the next element of the list. */
  function OptionArgument(args: seq<string>, extra: string): (r: Argument)
    ensures extra != "" ==> r == Some(extra, args)
    ensures extra == "" && args != [] ==> r == Some(args[0], args[1..])
    ensures extra == "" && args == [] ==> r == None
  {
    if extra != "" then Some(extra, args) else if args == [] then None else Some(args[0], args[1..])
  }

  /** The argument of an option and the list left after it, or none. */
  datatype Argument = None | Some(value: string, rest: seq<string>)

  /** `parse_option(args, state, op, extra)`. */
  function ParseOption(fs: FileSystem, args: seq<string>, st: Settings, op: OptionKind, extra: string): (r: Step)
    ensures r.Next? ==> r.args == args || (args != [] && r.args == args[1..])
    ensures r.Next? && r.args != args ==> extra == "" && op in {IncludePath, Out}
    ensures r.Stop? ==> r.error.e in {E_FINISH, E_DIR_NOT_EXIST}
  {
    match op
    case IncludeAll => Next(st.(includeAll := true), args)
    case Dry => Next(st.(dryRun := true), args)
    case Help => Stop(ErrorState(E_FINISH, ""))
    case IncludePath =>
      (match OptionArgument(args, extra)
       case None => MissingArgument
       case Some(arg, rest) =>
         if !fs.isDirectory(arg) then Stop(ErrorState(E_DIR_NOT_EXIST, arg))
         else Next(st.(includePaths := st.includePaths + [fs.canonical(arg)]), rest))
    case Out =>
      (match OptionArgument(args, extra)
       case None => MissingArgument
       case Some(arg, rest) => Next(st.(outFileName := arg), rest))
    case Tree => Next(st.(tree := true), args)
    case Verbose => Next(st.(verbose := true), args)
  }

  /** An argument that starts with '-' is an option. */
  predicate IsOption(arg: string) {
    CharAt(arg, 0) == '-'
  }

  /** An option that starts with "--" is a long option. */
  predicate IsLongOption(arg: string) {
    IsOption(arg) && CharAt(arg, 1) == '-'
  }

  /** The body of the loop of `parse_config` for the popped argument `arg`
      with the rest of the list `args`. */
  function ParseArgument(fs: FileSystem, arg: string, args: seq<string>, st: Settings): (r: Step)
    ensures r.Next? ==> r.args == args || (args != [] && r.args == args[1..])
    ensures r.Stop? ==> r.error.e != E_NO_ERROR
  {
    if IsLongOption(arg) then
      if arg[2..] in LongOptions then ParseOption(fs, args, st, LongOptions[arg[2..]], "")
      else Stop(ErrorState(E_UNKNOWN_OPTION, arg))
    else if IsOption(arg) then
      if CharAt(arg, 1) in ShortOptions then ParseOption(fs, args, st, ShortOptions[arg[1]], arg[2..])
      else Stop(ErrorState(E_UNKNOWN_OPTION, arg))
    else if st.file != "" then Stop(ErrorState(E_TOO_MANY_INPUT, ""))
    else if !fs.isRegularFile(arg) then Stop(ErrorState(E_FILE_NOT_EXIST, arg))
    else Next(st.(file := fs.canonical(arg)), args)
  }

  /** The loop of `parse_config` from settings `st` on the list `args`. */
  function Configure(fs: FileSystem, args: seq<string>, st: Settings): (r: ParseResult)
    ensures args == [] ==> r == Parsed(st)
    ensures r.Rejected? ==> r.error.e != E_NO_ERROR
    decreases |args|
  {
    if args == [] then Parsed(st)
    else
      match ParseArgument(fs, args[0], args[1..], st)
      case Next(st', rest) => Configure(fs, rest, st')
      case Stop(e) => Rejected(e)
      case MissingArgument => Undefined
  }

  /** `parse_config(argc, argv)`. */
  method ParseConfig(fs: FileSystem, argv: seq<string>) returns (r: ParseResult)
    ensures argv == [] ==> r == Rejected(ErrorState(E_TOO_LESS_ARGUMENTS, ""))
    ensures argv != [] ==> r == Configure(fs, argv, Default)
  {
    if |argv| == 0 {
      return Rejected(ErrorState(E_TOO_LESS_ARGUMENTS, ""));
    }
    var args := argv;
    var state := Default;
    while args != []
      invariant Configure(fs, args, state) == Configure(fs, argv, Default)
      decreases |args|
    {
      var arg := args[0];
      args := args[1..];
      var step: Step;
      if CharAt(arg, 0) == '-' {
        if CharAt(arg, 1) == '-' {
          if arg[2..] in LongOptions {
            step := ParseOption(fs, args, state, LongOptions[arg[2..]], "");
          } else {
            return Rejected(ErrorState(E_UNKNOWN_OPTION, arg));
          }
        } else if CharAt(arg, 1) in ShortOptions {
          step := ParseOption(fs, args, state, ShortOptions[arg[1]], arg[2..]);
        } else {
          return Rejected(ErrorState(E_UNKNOWN_OPTION, arg));
        }
      } else {
        if state.file != "" {
          return Rejected(ErrorState(E_TOO_MANY_INPUT, ""));
        }
        if !fs.isRegularFile(arg) {
          return Rejected(ErrorState(E_FILE_NOT_EXIST, arg));
        }
        step := Next(state.(file := fs.canonical(arg)), args);
      }
      match step
      case Next(st', rest) =>
        state, args := st', rest;
      case Stop(e) =>
        return Rejected(e);
      case MissingArgument =>
        return Undefined;
    }
    return Parsed(state);
  }

  /* Properties of the command line. */

  /** `after` keeps everything `before` has set: the file, the include
      paths as a prefix, and every flag. */
  predicate Grows(before: Settings, after: Settings) {
    (before.file != "" ==> after.file == before.file) && before.includePaths <= after.includePaths &&
    (before.includeAll ==> after.includeAll) && (before.dryRun ==> after.dryRun) &&
    (before.tree ==> after.tree) && (before.verbose ==> after.verbose)
  }

  /** One option only adds to the settings. */
  lemma OptionGrows(fs: FileSystem, args: seq<string>, st: Settings, op: OptionKind, extra: string)
    ensures var r := ParseOption(fs, args, st, op, extra); r.Next? ==> Grows(st, r.settings)
  {
  }

  /** One argument only adds to the settings. */
  lemma ArgumentGrows(fs: FileSystem, arg: string, args: seq<string>, st: Settings)
    ensures var r := ParseArgument(fs, arg, args, st); r.Next? ==> Grows(st, r.settings)
  {
    if IsLongOption(arg) {
      if arg[2..] in LongOptions {
        OptionGrows(fs, args, st, LongOptions[arg[2..]], "");
      }
    } else if IsOption(arg) {
      if CharAt(arg, 1) in ShortOptions {
        OptionGrows(fs, args, st, ShortOptions[arg[1]], arg[2..]);
      }
    }
  }

  /** Options and arguments only ever add to the settings: a file once set
      stays, include paths are appended in order, and flags once set stay
      set. */
  lemma {:induction false} SettingsOnlyGrow(fs: FileSystem, args: seq<string>, st: Settings)
    requires Configure(fs, args, st).Parsed?
    ensures Grows(st, Configure(fs, args, st).settings)
    decreases |args|
  {
    if args != [] {
      var step := ParseArgument(fs, args[0], args[1..], st);
      ArgumentGrows(fs, args[0], args[1..], st);
      assert step.Next? && Configure(fs, args, st) == Configure(fs, step.args, step.settings);
      SettingsOnlyGrow(fs, step.args, step.settings);
    }
  }

  /** A second input file is refused with E_TOO_MANY_INPUT. */
  lemma SecondInputRejected(fs: FileSystem, a: string, b: string, rest: seq<string>)
    requires !IsOption(a) && !IsOption(b) && fs.isRegularFile(a) && fs.canonical(a) != ""
    ensures Configure(fs, [a, b] + rest, Default) == Rejected(ErrorState(E_TOO_MANY_INPUT, ""))
  {
    assert ([a, b] + rest)[1..] == [b] + rest;
    assert ([b] + rest)[1..] == rest;
  }

  /** An option word that is not in the tables is refused with
      E_UNKNOWN_OPTION naming the whole argument, whatever follows. */
  lemma UnknownOptionRejected(fs: FileSystem, a: string, rest: seq<string>, st: Settings)
    requires IsOption(a)
    requires if IsLongOption(a) then a[2..] !in LongOptions else CharAt(a, 1) !in ShortOptions
    ensures Configure(fs, [a] + rest, st) == Rejected(ErrorState(E_UNKNOWN_OPTION, a))
  {
    assert ([a] + rest)[0] == a;
  }

  /** `-h` (with anything attached) and `--help` stop with E_FINISH. */
  lemma HelpFinishes(fs: FileSystem, a: string, rest: seq<string>, st: Settings)
    requires a == "--help" || (|a| >= 2 && a[..2] == "-h")
    ensures Configure(fs, [a] + rest, st) == Rejected(ErrorState(E_FINISH, ""))
  {
    assert ([a] + rest)[0] == a;
    if a != "--help" {
      assert a[0] == '-' && a[1] == 'h';
    } else {
      assert a[2..] == "help";
    }
  }

  /** `-I` and `-o` take an attached non-empty suffix exactly as they take
      a separate next argument. */
  lemma AttachedIsDetached(fs: FileSystem, letter: char, p: string, rest: seq<string>, st: Settings)
    requires letter == 'I' || letter == 'o'
    requires p != ""
    ensures Configure(fs, [['-', letter] + p] + rest, st) == Configure(fs, [['-', letter], p] + rest, st)
  {
    var a := ['-', letter] + p;
    assert ([a] + rest)[0] == a && ([a] + rest)[1..] == rest;
    assert a[1] == letter && a[2..] == p;
    var b: string := ['-', letter];
    assert ([b, p] + rest)[0] == b && ([b, p] + rest)[1..] == [p] + rest;
    assert b[2..] == "";
    assert ([p] + rest)[0] == p && ([p] + rest)[1..] == rest;
  }

  /** The long forms `--include` and `--out` always take the next argument,
      like the short forms with nothing attached. */
  lemma LongTakesNext(fs: FileSystem, word: string, p: string, rest: seq<string>, st: Settings)
    requires word == "include" || word == "out"
    ensures Configure(fs, ["--" + word, p] + rest, st) ==
            Configure(fs, [['-', if word == "include" then 'I' else 'o'], p] + rest, st)
  {
    var a := "--" + word;
    assert a[2..] == word && CharAt(a, 0) == '-' && CharAt(a, 1) == '-';
    assert (["--" + word, p] + rest)[0] == a && (["--" + word, p] + rest)[1..] == [p] + rest;
    var b: string := ['-', if word == "include" then 'I' else 'o'];
    assert ([b, p] + rest)[0] == b && ([b, p] + rest)[1..] == [p] + rest;
    assert b[2..] == "";
  }

  /** `-I`, `-o`, `--include` or `--out` as the last argument, with nothing
      attached, is the case the tool leaves undefined. */
  lemma MissingArgumentUndefined(fs: FileSystem, a: string, st: Settings)
    requires a in {"-I", "-o", "--include", "--out"}
    ensures Configure(fs, [a], st) == Undefined
  {
    assert [a][1..] == [];
    assert a[2..] == if a == "--include" then "include" else if a == "--out" then "out" else "";
  }

  /** Text attached to a flag is ignored: `-a...` is `-a`, and so on. */
  lemma FlagIgnoresSuffix(fs: FileSystem, letter: char, x: string, rest: seq<string>, st: Settings)
    requires letter in {'a', 'd', 't', 'v'}
    ensures Configure(fs, [['-', letter] + x] + rest, st) == Configure(fs, [['-', letter]] + rest, st)
  {
    var a := ['-', letter] + x;
    var b: string := ['-', letter];
    assert ([a] + rest)[0] == a && ([a] + rest)[1..] == rest;
    assert ([b] + rest)[0] == b && ([b] + rest)[1..] == rest;
    assert a[1] == letter && b[1] == letter;
  }

  /** `-I d` for each of `ds` in turn, the words `-I` and d separate. */
  function IncludeArgs(ds: seq<string>): (args: seq<string>)
    ensures |args| == 2 * |ds|
  {
    if ds == [] then [] else ["-I", ds[0]] + IncludeArgs(ds[1..])
  }

  /** The canonical forms of `ds`, in order. */
  function Canonicals(fs: FileSystem, ds: seq<string>): (cs: seq<Path>)
    ensures |cs| == |ds| && forall k :: 0 <= k < |ds| ==> cs[k] == fs.canonical(ds[k])
  {
    if ds == [] then [] else [fs.canonical(ds[0])] + Canonicals(fs, ds[1..])
  }

  /** One `-I d` for an existing directory appends its canonical form. */
  lemma OneIncludePath(fs: FileSystem, d: string, tail: seq<string>, st: Settings)
    requires fs.isDirectory(d)
    ensures Configure(fs, ["-I", d] + tail, st) ==
            Configure(fs, tail, st.(includePaths := st.includePaths + [fs.canonical(d)]))
  {
    var args := ["-I", d] + tail;
    assert args[0] == "-I" && args[1..] == [d] + tail;
    assert ([d] + tail)[0] == d && ([d] + tail)[1..] == tail;
    assert "-I"[2..] == "";
    assert ParseArgument(fs, "-I", [d] + tail, st) == ParseOption(fs, [d] + tail, st, IncludePath, "");
  }

  /** Appending the canonical forms of `ds` is appending the first one and
      then those of the rest. */
  lemma CanonicalsCons(fs: FileSystem, p: seq<Path>, ds: seq<string>)
    requires ds != []
    ensures p + Canonicals(fs, ds) == (p + [fs.canonical(ds[0])]) + Canonicals(fs, ds[1..])
  {
    var c, t := fs.canonical(ds[0]), Canonicals(fs, ds[1..]);
    assert Canonicals(fs, ds) == [c] + t;
    Text.Regroup(p, [c], t);
  }

  /** Include paths are kept in command-line order, canonicalised: a run of
      `-I d` for existing directories appends exactly their canonical
      forms. */
  lemma {:induction false} IncludePathsInOrder(fs: FileSystem, ds: seq<string>, rest: seq<string>, st: Settings)
    requires forall k :: 0 <= k < |ds| ==> fs.isDirectory(ds[k])
    ensures Configure(fs, IncludeArgs(ds) + rest, st) ==
            Configure(fs, rest, st.(includePaths := st.includePaths + Canonicals(fs, ds)))
    decreases |ds|
  {
    if ds == [] {
      assert IncludeArgs(ds) + rest == rest;
      assert st.includePaths + Canonicals(fs, ds) == st.includePaths;
    } else {
      var tail := IncludeArgs(ds[1..]) + rest;
      assert IncludeArgs(ds) + rest == ["-I", ds[0]] + tail;
      var st' := st.(includePaths := st.includePaths + [fs.canonical(ds[0])]);
      OneIncludePath(fs, ds[0], tail, st);
      assert forall k :: 0 <= k < |ds[1..]| ==> fs.isDirectory(ds[1..][k]) by {
        forall k | 0 <= k < |ds[1..]| ensures fs.isDirectory(ds[1..][k]) {
          assert ds[1..][k] == ds[k + 1];
        }
      }
      IncludePathsInOrder(fs, ds[1..], rest, st');
      CanonicalsCons(fs, st.includePaths, ds);
    }
  }
}
