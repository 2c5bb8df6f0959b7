# SingleInclude in Dafny

SingleInclude turns a C/C++ source file and everything it includes into one
self-contained text. It reads the input file line by line. A line that is an
include directive (`#include <...>` or `#include "..."`) is resolved against
a search list of directories. The search list is the configured include
paths, preceded by the including file's own directory unless that file was
itself reached through an angle-bracket include. Every directory whose joined
path is a regular file is a hit. With `--all` off, a hit whose canonical path
is already in the ledger of opened files is only noted as already included.
Any other hit is expanded recursively. The text of the directive is then
replaced by the expanded text between two marker comments, by an "omitted"
note, or kept as is when nothing was found. Along the way the tool builds a
dependency tree. `--tree` prints that tree with two spaces of indent per
level, the quoted name and a state label. A fixed three-line header starts
the output.

The project models, all from `main.cpp`:

* the two regular expressions and the hand-written scan for the file name
  (module `Directive`), including ECMAScript's `.`, which excludes `\n` and
  `\r`, and `\s`/`isspace` as the six ASCII whitespace characters;
* `getline` on a stream as splitting on `'\n'` (module `Text`);
* `file_t`, `add_quote` and `dump_tree` as the text it prints (module `Tree`);
* `parse_include`, twice:
  * as functions of the state it changes (module `Expander`, with one-step
    unfoldings in `ExpanderSteps`, the properties in `ExpanderFacts`, and
    in `ExpanderFrames` that the text accumulated so far plays no part);
  * as the imperative method it is, proved to compute exactly those
    functions (module `IncludeParser`). Here the ledger is a field of a
    `Config` object that every nested call updates, and the reused `temp`
    node is carried across the loop over the search directories.
* `parse_option` and `parse_config` (module `Options`), as functions plus
  the `while` loop that pops the argument list;
* the part of `main` that parses, expands from the header and decides where
  the text goes (module `Run`).

The file system is a parameter (module `Platform`):
* a finite map from openable paths to contents;
* uninterpreted functions for `is_regular_file`, `is_directory`,
  `canonical`, path joining and `parent_path`.

The globals `include_all`, `dry_run`, `tree` and `verbose` are fields of the
parsed settings. `include_all` is passed to the expander.

The model follows the code as written:
* The read loop `while(!fin.eof()) getline(...)` also processes the empty
  piece after a final `'\n'`. So a directive-free file with contents `c` is
  copied as `c + "\n"`: a file ending in a newline gains one empty line.
* When the command line names no input file, `parse_config` succeeds with
  an empty file name. On a real file system `main` then fails to open it and
  reports `E_FILE_ERROR`. In the model the file map may have the empty name
  as a key, so this holds under the stated hypothesis that it does not
  (`Run.NoInputFile`, an instance of `Run.UnopenableInput`).
* With include_all off, a directive whose file is found through two
  directories of the search list (the including file's own directory and an
  include path, say) expands the file at the first hit. The second hit then
  finds it in the ledger and leaves `temp` marked already included. So only
  the omitted note is emitted, the expanded text is dropped, and the file
  still counts as included (`ExpanderFacts.DuplicateDirectoryOmits`).

With `--all` off, recursion is bounded: each nested expansion is of a path
not yet in the finite ledger. The decreasing measure is the number of
openable files outside the ledger. With `--all` on the tool has no bound.
There, each expansion consumes one unit of a `fuel` parameter, and running
out is the model-only outcome `OutOfFuel`. With `--all` off the fuel is
never consumed and the result does not depend on it
(`ExpanderFacts.FuelIrrelevantFile`, `Run.FuelUnused`).

## Model

| member | source | states |
|---|---|---|
| Text.Split | main.cpp:303-304 | the pieces a `getline` loop reads: always at least one, none containing `'\n'` |
| Text.GetLine | main.cpp:303-304 | one `getline`: the first piece, the rest of the stream, and whether the end was hit; the pieces of the input are that line followed by the pieces of the rest |
| Text.JoinSplit | main.cpp:303-304 | joining the pieces with `'\n'` gives back the stream's text |
| Text.SplitJoin | main.cpp:303-304 | splitting pieces joined with `'\n'` gives back those pieces |
| Text.TerminatedSplit | main.cpp:303-306 | every piece followed by `'\n'` is the text plus one `'\n'` |
| Text.TerminatedJoin | main.cpp:303-306 | each piece followed by `'\n'` equals the joined pieces plus a final `'\n'` |
| Errors.Code | main.cpp:35-45 | the exit code of each error is its position in `error_type`: below 8, and 0 exactly for E_NO_ERROR |
| Errors.FileError | main.cpp:293 | an open failure is E_FILE_ERROR and its text ends with the root file's name |
| Directive.ExtractIncludeName | main.cpp:312-324 | the `it1`/`it2` loops: skipping to the first `<` or `"`, stepping past it, skipping whitespace, then taking characters up to the first `>`, `"` or whitespace, give `IncludeName`; that name contains no stop character |
| Directive.ScanStaysInLine | main.cpp:312-324 | on a directive the scans stay inside the line: the first opening character is the directive's delimiter, and the name starts after it and ends at or before the closing delimiter |
| Directive.NoOpeningBeforeTail | main.cpp:312-315 | nothing before the text after `include` is `<` or `"`, so the first scan stops at the directive's delimiter |
| Directive.AngleIffLessThan | main.cpp:89-90 | a directive is a system include exactly when the text after `include` starts with `<` |
| Directive.IsInclude | main.cpp:89 | `regex_include`: a line that matches has the directive prefix and, after it, at least two characters of which the first is `<` or `"` |
| Directive.IsSystemInclude | main.cpp:90 | `regex_system_include`: every line it matches also matches `regex_include` |
| Directive.IncludeName | main.cpp:312-324 | the name the scan takes after the opening delimiter contains no `>`, `"` or whitespace, and the character after it, if any, is one of those |
| Directive.NameIsFirstTokenOfBody | main.cpp:312-324 | the extracted name is the first whitespace-delimited token of the text between the delimiters |
| Directive.ComposedLineIsDirective | main.cpp:89-90 | one direction of the pattern: every line of its shape (whitespace, `#`, whitespace, `include`, whitespace, `<body>` or `"body"` with `.` characters, whitespace) is a directive; it is a system include iff it uses `<`; its body is `body` and its name is the first token of `body` |
| Directive.DirectiveIsComposed | main.cpp:89 | the other direction: every directive line is of that shape, cut at its own `#`, `include`, opening and closing delimiters, with whitespace between them, matching delimiters, and a body of `.` characters that is the directive's body |
| Directive.ComposedDelimited | main.cpp:89 | for such a line, the delimited part is the text between the leading `include` and the trailing whitespace |
| Directive.PrefixIsSkipped | main.cpp:89 | the directive prefix is recognised and the tail starts right after it |
| Directive.PrefixAt | main.cpp:89 | whitespace, `#`, whitespace, `include` and whitespace before a non-whitespace character form the directive prefix, whose tail starts at that character |
| Directive.TrimSpaces | main.cpp:89 | trailing whitespace is trimmed exactly |
| Tree.AddQuote | main.cpp:163-168 | the name between `<`/`>` when angle, between `"`/`"` otherwise |
| Tree.QuoteRoundTrip | main.cpp:163-168 | the quoting can be undone: name and angle flag are recovered |
| Tree.Spaces | main.cpp:370 | the indent prefix of `n` spaces |
| Tree.StateLabel | main.cpp:125-129 | `include_msg`: each state's label is a non-empty text with no newline and no `)`, so it closes its parenthesis on the node's line |
| Tree.DumpTree | main.cpp:369-377 | `dump_tree(f, depth)` prints the tree in pre-order: one line per node, `2*depth` spaces, the quoted name and ` (label)` |
| Tree.DumpForest | main.cpp:374-376 | the loop over the children prints each subtree in order, in pre-order, one level deeper than the parent |
| Tree.PreOrderSize | main.cpp:369-377 | the pre-order list of a tree has one entry per node, so `dump_tree` prints one line per node |
| Tree.PreOrderForestSize | main.cpp:374-376 | the children in order contribute one entry per node of their subtrees |
| Tree.RenderAppend | main.cpp:369-377 | the printed text of consecutive entries is the concatenation of their texts |
| Expander.SearchPaths | main.cpp:298-302 | the configured include paths, with the including file's parent directory in front exactly when that file is not an angle include |
| Expander.ExpandFile | main.cpp:289-367 | one `parse_include`: the ledger only grows and only by openable files; `out` is only appended to; the node only gains children; an opened file is in the ledger; every failure is `E_FILE_ERROR` naming the root file; with include_all off the fuel never runs out |
| Expander.ScanLines | main.cpp:303-306 | the read loop: the same monotonicity, and a failure is the one it started with or an open failure |
| Expander.ExpandLine | main.cpp:305-363 | the body of the read loop for one line, with the same monotonicity |
| Expander.AfterSearch | main.cpp:348-361 | after the search loop: status, ledger and tree are those of the search, and `out` is only appended to |
| Expander.Resolve | main.cpp:329-347 | the loop over the search list: ledger, content and children only grow, `temp` keeps the directive's quoting, and `found` once set stays set |
| Expander.ResolveHit | main.cpp:331-345 | one hit: the same facts |
| Expander.ExpandHit | main.cpp:339-345 | one expanded hit: the same facts |
| ExpanderFacts.PlainLinesPassThrough | main.cpp:305-306 | non-directive lines are copied unchanged, each followed by `'\n'`, and nothing else changes |
| ExpanderFacts.PassThrough | main.cpp:291-306 | a directive-free file with contents `c` appends exactly `c + "\n"`, gains no children, and is entered into the ledger |
| ExpanderFacts.ScanConcat | main.cpp:303-306 | reading `a` then `b` is reading `a` and then going on with `b` |
| ExpanderFacts.ErrorStopsScan | main.cpp:341-343 | once an error occurs, no further line is processed |
| ExpanderFacts.NoHitNoChange | main.cpp:329-347 | with no hit the search loop changes nothing |
| ExpanderFacts.Hits | main.cpp:329-331 | the hits of the search loop, in search order: at most one per directory of the list |
| ExpanderFacts.EveryHitCounts | main.cpp:329-347 | every hit counts: one child per hit, in search order, named by the hit's canonical path, quoted like the directive, never NotFound, each carrying the children of the one before; the last is `temp` as the loop leaves it; with include_all off hits already in the ledger are AlreadyIncluded and expanded ones are entered; with include_all on every child is expanded; `found` iff some hit |
| ExpanderFacts.HitStep | main.cpp:331-346 | the same facts from a hit onwards |
| ExpanderFacts.ExpandStep | main.cpp:339-346 | the same facts from an expanded hit onwards |
| ExpanderFacts.JoinChildren | main.cpp:345 | pushing one hit before the children of the rest of the loop gives the facts for all of them |
| ExpanderFacts.ResolveConcat | main.cpp:329-347 | the search loop over two lists of directories is the loop over the first and then, from the state that leaves, the loop over the second |
| ExpanderFacts.HitDecidedByLedger | main.cpp:331-345 | with include_all off, for a hit at any position of the search list: the child pushed is an AlreadyIncluded copy of `temp` exactly when the hit's canonical path is in the ledger as the loop reaches it, and otherwise the node of that path expanded from the content and ledger at that point, marked expended |
| ExpanderFacts.DuplicateDirectoryOmits | main.cpp:329-361 | with include_all off, a new file found through two directories is expanded and entered into the ledger at the first hit, yet the directive emits only the omitted note |
| ExpanderFacts.DirectiveOutcome | main.cpp:348-361 | the text per outcome: a failure emits nothing; no hit copies the line plus `'\n'` and adds a NotFound child named by the raw extracted name; otherwise the last child's state picks `"// "+line+"\n"` + content + `"// End "+line+"\n"` or the omitted note |
| ExpanderFacts.Copies | main.cpp:345 | the children pushed for hits already included: copies of `temp`, one per hit, renamed |
| ExpanderFacts.AllIncluded | main.cpp:336-345 | when every hit is already in the ledger, the loop opens nothing and pushes one AlreadyIncluded copy per hit |
| ExpanderFacts.AllIncludedHit | main.cpp:336-345 | the same from a hit onwards |
| ExpanderFacts.DuplicateSuppressed | main.cpp:336-361 | a directive whose hits are all in the ledger emits only the omitted note and pushes AlreadyIncluded copies |
| ExpanderFacts.SelfIncludeStops | main.cpp:295-361 | with include_all off, a file whose directives find only itself or files already in the ledger (the files it is being expanded inside) expands nothing below it: it emits its lines with each such directive replaced by the omitted note, gains one AlreadyIncluded child per hit and a NotFound child per name found nowhere, and only itself enters the ledger; the ledger entry made before scanning is what stops the cycle |
| ExpanderFacts.SuppressedLines | main.cpp:303-361 | the same for the read loop over any lines whose directives find only files in the ledger |
| ExpanderFacts.SelfIncludeOneLine | main.cpp:295-338 | a one-line file that includes only itself ends with one AlreadyIncluded child and the omitted note |
| ExpanderFacts.SingleHit | main.cpp:329-347 | a search with exactly one hit that expands is that one expansion pushed |
| ExpanderFacts.ExpandOnlyHit | main.cpp:339-347 | an expanded hit with no hits after it is that expansion pushed |
| ExpanderFacts.SingleHitExpanded | main.cpp:305-358 | a directive with one expandable hit emits the markers around the expanded text and pushes the expanded child |
| ExpanderFacts.CountFile | main.cpp:291-344 | with include_all off, the number of files opened equals the number of paths the ledger gained |
| ExpanderFacts.CountLines | main.cpp:303-306 | the same for the read loop |
| ExpanderFacts.CountLine | main.cpp:305-363 | the same for one line |
| ExpanderFacts.CountResolve | main.cpp:329-347 | the same for the search loop |
| ExpanderFacts.CountHit | main.cpp:331-346 | the same for one hit |
| ExpanderFacts.CountExpand | main.cpp:339-346 | the same for one expanded hit |
| ExpanderFacts.CountGoOn | main.cpp:345-347 | the same after a successful expansion |
| ExpanderFacts.ExpansionsBounded | main.cpp:295-344 | with include_all off, the number of expansions is at most the number of files outside the ledger, hence at most the number of files |
| ExpanderFacts.FuelIrrelevantFile | main.cpp:336-341 | with include_all off the result does not depend on the fuel |
| ExpanderFacts.FuelIrrelevantLines | main.cpp:303-306 | the same for the read loop |
| ExpanderFacts.FuelIrrelevantLine | main.cpp:305-363 | the same for one line |
| ExpanderFacts.FuelIrrelevantResolve | main.cpp:329-347 | the same for the search loop |
| ExpanderFacts.FuelIrrelevantHit | main.cpp:331-346 | the same for one hit |
| ExpanderFacts.FuelIrrelevantExpand | main.cpp:339-346 | the same for one expanded hit |
| ExpanderFacts.FuelIrrelevantGoOn | main.cpp:345-347 | the same after a successful expansion |
| ExpanderFrames.ExpandFileFrame | main.cpp:289-367 | `parse_include` only appends to `out`: its result with some text already in `out` is its result from an empty `out` with that text in front |
| ExpanderFrames.ScanLinesFrame | main.cpp:303-363 | the same for the read loop |
| ExpanderFrames.ExpandLineShift | main.cpp:305-363 | the same for one line |
| ExpanderFrames.ResolveFrame | main.cpp:326-347 | the search loop only appends to `content`: its result is that from an empty `content` with the old content in front |
| IncludeParser.Config.constructor | main.cpp:146-155 | a configuration with the given settings and an empty ledger |
| IncludeParser.ParseInclude | main.cpp:289-367 | the imperative `parse_include`: status, new node, new `out` and new ledger are exactly those of `ExpandFile` |
| IncludeParser.ParseDirective | main.cpp:307-362 | the loop body for a directive: exactly `ExpandLine` |
| IncludeParser.SearchDirectories | main.cpp:326-347 | the `for` loop over the search list with the reused `temp`: exactly `Resolve` |
| IncludeParser.VisitDirectory | main.cpp:330-346 | one iteration of that loop: the ledger grows, and `Resolve` on the directories from here is `Resolve` on the rest after this one |
| IncludeParser.ExpandFound | main.cpp:339-345 | the nested `parse_include` of a hit and the push: exactly `ExpandHit` |
| Options.CharAt | main.cpp:257-267 | `arg[i]` on a `std::string`: the character, or `'\0'` at the end |
| Options.OptionArgument | main.cpp:203-223 | the argument of `-I`/`-o`: the attached text when non-empty, otherwise the next element of the list, or none when the list is empty |
| Options.ParseOption | main.cpp:188-240 | one option: the list left is the list or the list without its first element; it consumes an argument only for `-I`/`-o`/`--include`/`--out` with nothing attached; it stops only with E_FINISH (help) or E_DIR_NOT_EXIST |
| Options.ParseArgument | main.cpp:255-284 | one popped argument: the list left is the list or the list without its first element; every refusal carries an error |
| Options.Configure | main.cpp:254-286 | the loop of `parse_config` from given settings: an empty list leaves them as they are, and every refusal carries an error other than E_NO_ERROR |
| Options.ParseConfig | main.cpp:242-287 | the `while` loop of `parse_config`: E_TOO_LESS_ARGUMENTS for an empty list, otherwise exactly `Configure` from the default settings |
| Options.OptionGrows | main.cpp:188-240 | an option only adds to the settings |
| Options.ArgumentGrows | main.cpp:255-284 | an argument only adds to the settings |
| Options.SettingsOnlyGrow | main.cpp:254-286 | across the loop the input file once set stays, include paths are appended in order, and flags once set stay set |
| Options.SecondInputRejected | main.cpp:275-283 | a second positional argument is refused with E_TOO_MANY_INPUT |
| Options.UnknownOptionRejected | main.cpp:257-273 | an unrecognised `-x` or `--name` is refused with E_UNKNOWN_OPTION naming the whole argument |
| Options.HelpFinishes | main.cpp:198-201 | `-h` with anything attached, and `--help`, stop with E_FINISH |
| Options.AttachedIsDetached | main.cpp:202-226 | `-I`/`-o` with a non-empty attached suffix behave as with that suffix as the next argument |
| Options.LongTakesNext | main.cpp:202-226 | `--include`/`--out` take the next argument, like `-I`/`-o` with nothing attached |
| Options.MissingArgumentUndefined | main.cpp:204-220 | `-I`, `-o`, `--include` or `--out` as the last argument is the undefined case |
| Options.FlagIgnoresSuffix | main.cpp:266-270 | text attached to `-a`, `-d`, `-t` or `-v` is ignored |
| Options.IncludeArgs | main.cpp:202-215 | the words `-I d` for each directory in turn |
| Options.Canonicals | main.cpp:213 | the canonical form of each directory, in order |
| Options.OneIncludePath | main.cpp:202-215 | one `-I d` for an existing directory appends its canonical form |
| Options.IncludePathsInOrder | main.cpp:202-215 | include paths are kept in command-line order: a run of `-I d` for existing directories appends exactly their canonical forms |
| Run.RootNode | main.cpp:279-283 | the root node: the input file, expended, not an angle include, no children yet |
| Run.HeaderIsComment | main.cpp:91-94 | `header` is three lines, each a `//` comment and each ended by a newline |
| Run.Parse | main.cpp:395 | `parse_config(argc - 1, argv + 1)`: E_TOO_LESS_ARGUMENTS without arguments, otherwise the loop from the defaults |
| Run.Main | main.cpp:393-409 | a run: generated text starts with the header and its tree extends the root; a failed expansion is E_FILE_ERROR naming the input file; a failed configuration is never E_FINISH; OutOfFuel only with include_all |
| Run.ExitCode | main.cpp:396-409 | `main` returns 0 exactly for help and success, and otherwise the error's code |
| Run.Destination | main.cpp:410-424 | a dry run writes nothing; otherwise the text goes to the named output file, or to the console when none is named |
| Run.TreeReport | main.cpp:425-429 | with `--tree` and without `--verbose`, the pre-order tree text; otherwise nothing |
| Run.Generate | main.cpp:393-409 | the imperative `main` up to writing: exactly `Main` |
| Run.FuelUnused | main.cpp:336-341 | without include_all a run never runs out of fuel and does not depend on it |
| Run.PlainInputCopied | main.cpp:402-403 | a directive-free input is the header followed by its contents and one `'\n'`, and its tree is the root alone |
| Run.UnopenableInput | main.cpp:291-294 | an input that cannot be opened ends in E_FILE_ERROR naming it, exit code 6 |
| Run.NoInputFile | main.cpp:275-294 | a command line without an input file leaves the empty name; when no file of that name can be opened the run ends in E_FILE_ERROR with "Cannot open file " and exit code 6 |
| Run.RunOpensEachFileOnce | main.cpp:403 | without include_all the number of successful opens is the number of distinct files entered, all of them existing files, so no file is opened twice |
| Run.ExitCodeDefined | main.cpp:396-409 | every run the tool defines has an exit code |

## Left out

- Reading and writing files: `ifstream` reads become lookups in the file map, and `ofstream` output becomes the `Run.Destination` choice. A failure to open the output file (main.cpp:413-418) is not modelled.
- `std::filesystem`: `canonical`, `is_regular_file`, `is_directory`, `operator/` and `parent_path` are uninterpreted. Only openability is tied to the file map. Exceptions that `canonical` may throw are not modelled.
- `std::regex`: the two patterns are hand-written predicates, not a regex engine.
- Messages: `error_state::what` and `vformat` (main.cpp:113-115), the `log` messages (main.cpp:157-161), `print_help`, and `dump` under `--verbose` (main.cpp:379-391, 425-426). All of these are output formatting through foreign libraries.
- `-I`/`-o` as the last argument reads the front of an empty list, which is undefined behaviour. It is the explicit outcome `MissingArgument`/`Undefined`, not behaviour.
- The `OPTION_COUNT` case of `parse_option` cannot be reached from either option table, so it is not a case of `OptionKind`.
- Expander.ExpandFile: with include_all on, recursion is bounded by `fuel`, and the model makes no termination claim for the unbounded tool. Running out is the model-only status `OutOfFuel`.
- IncludeParser.ParseInclude: a read failure of the stream other than failing to open is not modelled. `getline` on an open stream always yields the pieces of the file's contents.
- The expansion count `expansions` and the ghost `count` out-parameters record the number of successful opens. They have no counterpart in the tool. They exist to state the bound on expansions.
