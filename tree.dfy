/** The dependency tree `file_t` and its text rendering (`add_quote`,
    `dump_tree`). */
module Tree {
  import opened Platform

  /** `include_state_t`: what happened to one include occurrence. The
      spelling "expended" is the tool's own. */
  datatype IncludeState = Expended | AlreadyIncluded | NotFound

  /** `include_msg`: the label printed after each node. */
  function StateLabel(s: IncludeState): (text: string)
    ensures text != "" && '\n' !in text && ')' !in text
  {
    match s
    case Expended => "expended"
    case AlreadyIncluded => "already included"
    case NotFound => "not found"
  }

  /** `file_t`: a file, the include occurrences found in it (in order), how
      it was reached, and whether the directive that reached it used angle
      brackets. */
  datatype FileNode = FileNode(name: Path, includeFiles: seq<FileNode>, state: IncludeState, isAngle: bool)

  function OpenQuote(isAngle: bool): char {
    if isAngle then '<' else '"'
  }

  function CloseQuote(isAngle: bool): char {
    if isAngle then '>' else '"'
  }

  /** `add_quote`: the name between the delimiters its quoting implies. */
  function AddQuote(name: string, isAngle: bool): (r: string)
    ensures |r| == |name| + 2
    ensures r[0] == OpenQuote(isAngle) && r[|r| - 1] == CloseQuote(isAngle)
    ensures r[1..|r| - 1] == name
  {
    [OpenQuote(isAngle)] + name + [CloseQuote(isAngle)]
  }

  /** The inverse of AddQuote: strip the delimiters and read the quoting. */
  function RemoveQuote(quoted: string): (string, bool)
    requires |quoted| >= 2
  {
    (quoted[1..|quoted| - 1], quoted[0] == '<')
  }

  lemma QuoteRoundTrip(name: string, isAngle: bool)
    ensures RemoveQuote(AddQuote(name, isAngle)) == (name, isAngle)
  {
  }

  function Spaces(n: nat): (s: string)
    ensures |s| == n && forall j :: 0 <= j < n ==> s[j] == ' '
  {
    if n == 0 then "" else " " + Spaces(n - 1)
  }

  /** The line `dump_tree` prints for one node at a given depth. */
  function NodeLine(f: FileNode, depth: nat): string {
    Spaces(2 * depth) + AddQuote(f.name, f.isAngle) + " (" + StateLabel(f.state) + ")\n"
  }

  /** `dump_tree(f, depth)` as the text it writes: the tree in pre-order,
      one line per node, each indented by two spaces per level. */
  function DumpTree(f: FileNode, depth: nat): (r: string)
    ensures r == RenderEntries(PreOrder(f, depth))
    decreases f, 1
  {
    RenderAppend([(f, depth)], PreOrderForest(f.includeFiles, depth + 1));
    NodeLine(f, depth) + DumpForest(f.includeFiles, depth + 1)
  }

  /** The loop over the children: each subtree in order, at the same depth. */
  function DumpForest(fs: seq<FileNode>, depth: nat): (r: string)
    ensures r == RenderEntries(PreOrderForest(fs, depth))
    decreases fs, 0
  {
    if fs == [] then ""
    else
      RenderAppend(PreOrder(fs[0], depth), PreOrderForest(fs[1..], depth));
      DumpTree(fs[0], depth) + DumpForest(fs[1..], depth)
  }

  /** The nodes of a tree in pre-order, each with its depth. */
  function PreOrder(f: FileNode, depth: nat): (r: seq<(FileNode, nat)>)
    ensures |r| >= 1 && r[0] == (f, depth)
    ensures forall k :: 0 <= k < |r| ==> r[k].1 >= depth
    decreases f, 1
  {
    [(f, depth)] + PreOrderForest(f.includeFiles, depth + 1)
  }

  function PreOrderForest(fs: seq<FileNode>, depth: nat): (r: seq<(FileNode, nat)>)
    ensures forall k :: 0 <= k < |r| ==> r[k].1 >= depth
    decreases fs, 0
  {
    if fs == [] then [] else PreOrder(fs[0], depth) + PreOrderForest(fs[1..], depth)
  }

  /** Each entry rendered as a node line, one after the other. */
  function RenderEntries(entries: seq<(FileNode, nat)>): string {
    if entries == [] then "" else NodeLine(entries[0].0, entries[0].1) + RenderEntries(entries[1..])
  }

  /** The number of nodes of a tree. */
  function Size(f: FileNode): (n: nat)
    ensures n >= 1
    decreases f, 1
  {
    1 + ForestSize(f.includeFiles)
  }

  function ForestSize(fs: seq<FileNode>): nat
    decreases fs, 0
  {
    if fs == [] then 0 else Size(fs[0]) + ForestSize(fs[1..])
  }

  lemma {:induction false} RenderAppend(a: seq<(FileNode, nat)>, b: seq<(FileNode, nat)>)
    ensures RenderEntries(a + b) == RenderEntries(a) + RenderEntries(b)
    decreases |a|
  {
    if a == [] {
      assert a + b == b;
    } else {
      assert (a + b)[0] == a[0];
      assert (a + b)[1..] == a[1..] + b;
      RenderAppend(a[1..], b);
    }
  }

  /** The pre-order list has one entry per node, so `dump_tree` prints one
      line per node of the tree. */
  lemma {:induction false} PreOrderSize(f: FileNode, depth: nat)
    ensures |PreOrder(f, depth)| == Size(f)
    decreases f, 1
  {
    PreOrderForestSize(f.includeFiles, depth + 1);
  }

  lemma {:induction false} PreOrderForestSize(fs: seq<FileNode>, depth: nat)
    ensures |PreOrderForest(fs, depth)| == ForestSize(fs)
    decreases fs, 0
  {
    if fs != [] {
      PreOrderSize(fs[0], depth);
      PreOrderForestSize(fs[1..], depth);
    }
  }
}
