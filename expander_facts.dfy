/** What the expander promises, proved about the functions of module
    Expander: pass-through of plain lines, the read loop stopping at an
    error, every hit of the search loop producing one child, the text
    emitted per outcome, and the ledger bound on the number of expansions. */
module ExpanderFacts {
  import opened Text
  import opened Errors
  import opened Platform
  import opened Directive
  import opened Tree
  import opened Expander
  import opened ExpanderSteps
  import Ledger

  /** No line of `lines` is an include directive. */
  predicate Plain(lines: seq<string>) {
    forall k :: 0 <= k < |lines| ==> !IsInclude(lines[k])
  }

  /** Plain lines are copied unchanged, each followed by '\n'; nothing else
      of the state changes. */
  lemma {:induction false} PlainLinesPassThrough(env: Env, sp: seq<Path>, lines: seq<string>, st: Scan, fuel: nat)
    requires st.status.Ok? && Plain(lines)
    ensures ScanLines(env, sp, lines, st, fuel) == st.(out := st.out + Terminated(lines))
    decreases |lines|
  {
    if lines != [] {
      assert !IsInclude(lines[0]);
      var st' := st.(out := st.out + lines[0] + "\n");
      assert Plain(lines[1..]) by {
        forall k | 0 <= k < |lines[1..]| ensures !IsInclude(lines[1..][k]) {
          assert lines[1..][k] == lines[k + 1];
        }
      }
      PlainLinesPassThrough(env, sp, lines[1..], st', fuel);
      assert st'.out + Terminated(lines[1..]) == st.out + Terminated(lines);
    }
  }

  /** A file without directives expands to its content plus one '\n' (so a
      file ending in '\n' gives one extra empty line), gets no children, and
      only itself enters the ledger. */
  lemma PassThrough(env: Env, file: FileNode, out: string, ledger: set<Path>, fuel: nat)
    requires env.includeAll || file.name !in ledger
    requires CanOpen(env.fs, file.name) && Plain(Split(env.fs.contents[file.name]))
    ensures ExpandFile(env, file, out, ledger, fuel) ==
            Scan(Ok, out + env.fs.contents[file.name] + "\n", file, ledger + {file.name}, 1)
  {
    var c := env.fs.contents[file.name];
    PlainLinesPassThrough(env, SearchPaths(env, file), Split(c), Scan(Ok, out, file, ledger + {file.name}, 1), fuel);
    TerminatedSplit(c);
    assert out + Terminated(Split(c)) == out + c + "\n";
  }

  /** Reading `a + b` is reading `a` and then, from the state that left,
      reading `b`. */
  lemma {:induction false} ScanConcat(env: Env, sp: seq<Path>, a: seq<string>, b: seq<string>, st: Scan, fuel: nat)
    ensures ScanLines(env, sp, a + b, st, fuel) == ScanLines(env, sp, b, ScanLines(env, sp, a, st, fuel), fuel)
    decreases |a|
  {
    if a == [] {
      assert a + b == b;
    } else if st.status.Ok? {
      assert (a + b)[0] == a[0];
      assert (a + b)[1..] == a[1..] + b;
      ScanConcat(env, sp, a[1..], b, ExpandLine(env, sp, a[0], st, fuel), fuel);
    }
  }

  /** Once a line fails, no further line is read: the state the failure
      left is the result. */
  lemma ErrorStopsScan(env: Env, sp: seq<Path>, a: seq<string>, b: seq<string>, st: Scan, fuel: nat)
    requires !ScanLines(env, sp, a, st, fuel).status.Ok?
    ensures ScanLines(env, sp, a + b, st, fuel) == ScanLines(env, sp, a, st, fuel)
  {
    ScanConcat(env, sp, a, b, st, fuel);
    var m := ScanLines(env, sp, a, st, fuel);
    if b != [] {
      assert ScanLines(env, sp, b, m, fuel) == m;
    }
  }

  /** The canonical paths of the hits for `name` over the directories `ps`,
      in order: every directory whose joined path is a regular file. */
  function Hits(env: Env, name: string, ps: seq<Path>): (h: seq<Path>)
    ensures |h| <= |ps|
  {
    if ps == [] then []
    else
      var path := env.fs.join(ps[0], name);
      (if env.fs.isRegularFile(path) then [env.fs.canonical(path)] else []) + Hits(env, name, ps[1..])
  }

  /** Without a hit the search loop changes nothing. */
  lemma {:induction false} NoHitNoChange(env: Env, name: string, ps: seq<Path>, s: Search, fuel: nat)
    requires Hits(env, name, ps) == []
    ensures Resolve(env, name, ps, s, fuel) == s
    decreases |ps|
  {
    if ps != [] && s.status.Ok? {
      NoHitNoChange(env, name, ps[1..], s, fuel);
    }
  }

  /** The children the search loop appended, relative to where it started. */
  function Added(s: Search, r: Search): seq<FileNode>
    requires Extends(s.node, r.node)
  {
    r.node.includeFiles[|s.node.includeFiles|..]
  }

  /** The facts about the children one run of the search loop appended: one
      per hit in search order, named by the hit, quoted like the directive,
      never NotFound, each carrying the children of the one before (the
      reused `temp`), the last one being `temp` as the loop leaves it, and,
      with include_all off, every hit already in the ledger marked
      AlreadyIncluded while every expanded one is now in the ledger, and,
      with include_all on, every hit expanded. */
  predicate HitChildren(env: Env, hits: seq<Path>, s: Search, r: Search)
    requires Extends(s.node, r.node)
  {
    var cs := Added(s, r);
    |cs| == |hits| &&
    (forall k :: 0 <= k < |cs| ==> cs[k].name == hits[k] && cs[k].isAngle == s.temp.isAngle && cs[k].state != NotFound) &&
    (forall k :: 0 <= k < |cs| - 1 ==> cs[k].includeFiles <= cs[k + 1].includeFiles) &&
    (cs != [] ==> s.temp.includeFiles <= cs[0].includeFiles && cs[|cs| - 1] == r.temp) &&
    (cs == [] ==> r.temp == s.temp) &&
    (!env.includeAll ==> forall k :: 0 <= k < |cs| ==>
        (hits[k] in s.ledger ==> cs[k].state == AlreadyIncluded) &&
        (cs[k].state == Expended ==> hits[k] in r.ledger - s.ledger)) &&
    (env.includeAll ==> forall k :: 0 <= k < |cs| ==> cs[k].state == Expended)
  }

  /** Every hit counts: a search loop that ends without error appended
      exactly the children HitChildren describes, and it found something iff
      it had found something already or there was a hit. */
  lemma {:induction false} EveryHitCounts(env: Env, name: string, ps: seq<Path>, s: Search, fuel: nat)
    requires Resolve(env, name, ps, s, fuel).status.Ok?
    ensures var r := Resolve(env, name, ps, s, fuel);
            HitChildren(env, Hits(env, name, ps), s, r) && (r.found <==> s.found || Hits(env, name, ps) != [])
    decreases |ps|
  {
    var r := Resolve(env, name, ps, s, fuel);
    if ps == [] || !s.status.Ok? {
    } else if !env.fs.isRegularFile(env.fs.join(ps[0], name)) {
      assert Hits(env, name, ps) == [] + Hits(env, name, ps[1..]) == Hits(env, name, ps[1..]);
      assert r == Resolve(env, name, ps[1..], s, fuel);
      EveryHitCounts(env, name, ps[1..], s, fuel);
    } else {
      assert r == ResolveHit(env, name, ps, s, fuel);
      HitStep(env, name, ps, s, fuel);
    }
  }

  /** The step of EveryHitCounts at a hit. */
  lemma {:induction false} HitStep(env: Env, name: string, ps: seq<Path>, s: Search, fuel: nat)
    requires ps != [] && s.status.Ok? && env.fs.isRegularFile(env.fs.join(ps[0], name))
    requires ResolveHit(env, name, ps, s, fuel).status.Ok?
    ensures var r := ResolveHit(env, name, ps, s, fuel);
            HitChildren(env, Hits(env, name, ps), s, r) && r.found
    decreases |ps|, 1
  {
    var h := env.fs.canonical(env.fs.join(ps[0], name));
    var temp := s.temp.(name := h);
    assert Hits(env, name, ps) == [h] + Hits(env, name, ps[1..]);
    if !env.includeAll && h in s.ledger {
      var temp' := temp.(state := AlreadyIncluded);
      var s1 := s.(temp := temp', found := true, node := PushChild(s.node, temp'));
      EveryHitCounts(env, name, ps[1..], s1, fuel);
      JoinChildren(env, h, Hits(env, name, ps[1..]), s, s1, Resolve(env, name, ps[1..], s1, fuel));
    } else {
      ExpandStep(env, name, ps, s, temp.(state := Expended), fuel);
    }
  }

  /** The step of EveryHitCounts at a hit that is expanded. */
  lemma {:induction false} ExpandStep(env: Env, name: string, ps: seq<Path>, s: Search, temp: FileNode, fuel: nat)
    requires ps != [] && s.status.Ok?
    requires env.includeAll ==> fuel > 0
    requires env.includeAll || temp.name !in s.ledger
    requires temp.isAngle == s.temp.isAngle && temp.state == Expended
    requires s.temp.includeFiles <= temp.includeFiles
    requires ExpandHit(env, name, ps, s, temp, fuel).status.Ok?
    ensures var r := ExpandHit(env, name, ps, s, temp, fuel);
            HitChildren(env, [temp.name] + Hits(env, name, ps[1..]), s, r) && r.found
    decreases |ps|, 0
  {
    var f := ExpandFile(env, temp, s.content, s.ledger, if env.includeAll then fuel - 1 else fuel);
    var s1 := s.(temp := f.node, found := true, content := f.out, ledger := f.ledger,
                 expansions := s.expansions + f.expansions, node := PushChild(s.node, f.node));
    var r := ExpandHit(env, name, ps, s, temp, fuel);
    assert f.status.Ok? && r == Resolve(env, name, ps[1..], s1, fuel);
    EveryHitCounts(env, name, ps[1..], s1, fuel);
    JoinChildren(env, temp.name, Hits(env, name, ps[1..]), s, s1, r);
  }

  /** Gluing the child of one hit in front of the children of the rest. */
  lemma JoinChildren(env: Env, h: Path, hits: seq<Path>, s: Search, s1: Search, r: Search)
    requires Extends(s.node, s1.node) && Extends(s1.node, r.node)
    requires s1.node.includeFiles == s.node.includeFiles + [s1.temp]
    requires s1.temp.name == h && s1.temp.isAngle == s.temp.isAngle && s1.temp.state != NotFound
    requires s.temp.includeFiles <= s1.temp.includeFiles
    requires s.ledger <= s1.ledger <= r.ledger
    requires !env.includeAll ==> (h in s.ledger ==> s1.temp.state == AlreadyIncluded) &&
                                 (s1.temp.state == Expended ==> h in s1.ledger - s.ledger)
    requires env.includeAll ==> s1.temp.state == Expended
    requires HitChildren(env, hits, s1, r)
    ensures Extends(s.node, r.node)
    ensures HitChildren(env, [h] + hits, s, r)
  {
    var n := |s.node.includeFiles|;
    var cs, cs1 := Added(s, r), Added(s1, r);
    assert cs == [s1.temp] + cs1 by {
      assert r.node.includeFiles[n] == s1.temp;
      assert r.node.includeFiles[n + 1..] == cs1;
    }
    ConsNames(env, h, hits, s1.temp, cs1, s.temp.isAngle, s.ledger, s1.ledger, r.ledger, cs, [h] + hits);
    ConsChain(s1.temp, cs1, cs);
  }

  /** The per-child facts of HitChildren hold of one more child in front. */
  lemma ConsNames(env: Env, h: Path, hits: seq<Path>, c: FileNode, cs1: seq<FileNode>, angle: bool,
                  l0: set<Path>, l1: set<Path>, l2: set<Path>, cs: seq<FileNode>, all: seq<Path>)
    requires cs == [c] + cs1 && all == [h] + hits
    requires c.name == h && c.isAngle == angle && c.state != NotFound
    requires l0 <= l1 <= l2
    requires !env.includeAll ==> (h in l0 ==> c.state == AlreadyIncluded) && (c.state == Expended ==> h in l1 - l0)
    requires env.includeAll ==> c.state == Expended
    requires |cs1| == |hits|
    requires forall k :: 0 <= k < |cs1| ==> cs1[k].name == hits[k] && cs1[k].isAngle == angle && cs1[k].state != NotFound
    requires !env.includeAll ==> forall k :: 0 <= k < |cs1| ==>
               (hits[k] in l1 ==> cs1[k].state == AlreadyIncluded) && (cs1[k].state == Expended ==> hits[k] in l2 - l1)
    requires env.includeAll ==> forall k :: 0 <= k < |cs1| ==> cs1[k].state == Expended
    ensures |cs| == |all| &&
            (forall k :: 0 <= k < |cs| ==> cs[k].name == all[k] && cs[k].isAngle == angle && cs[k].state != NotFound) &&
            (!env.includeAll ==> forall k :: 0 <= k < |cs| ==>
               (all[k] in l0 ==> cs[k].state == AlreadyIncluded) && (cs[k].state == Expended ==> all[k] in l2 - l0)) &&
            (env.includeAll ==> forall k :: 0 <= k < |cs| ==> cs[k].state == Expended)
  {
    forall k | 0 < k < |cs|
      ensures cs[k] == cs1[k - 1] && all[k] == hits[k - 1]
    {
    }
  }

  /** Each child carrying the children of the one before stays true with
      one more child in front that the first one extends. */
  lemma ConsChain(c: FileNode, cs1: seq<FileNode>, cs: seq<FileNode>)
    requires cs == [c] + cs1
    requires forall k :: 0 <= k < |cs1| - 1 ==> cs1[k].includeFiles <= cs1[k + 1].includeFiles
    requires cs1 != [] ==> c.includeFiles <= cs1[0].includeFiles
    ensures forall k :: 0 <= k < |cs| - 1 ==> cs[k].includeFiles <= cs[k + 1].includeFiles
  {
    forall k | 0 < k < |cs|
      ensures cs[k] == cs1[k - 1]
    {
    }
  }

  /** The search state a directive line starts with. */
  function StartSearch(line: string, st: Scan): Search {
    Search(Ok, InitialTemp(line), false, "", st.node, st.ledger, st.expansions)
  }

  /** The text and children a directive line leaves, by outcome: a failure
      emits nothing and passes the error on; no hit copies the line and adds
      a NotFound child named by the raw extracted name; otherwise one child
      per hit is added, and the last one's state picks the marker: the
      expanded text between "// line" and "// End line", or the omitted
      note. */
  lemma DirectiveOutcome(env: Env, sp: seq<Path>, line: string, st: Scan, fuel: nat)
    requires st.status.Ok? && IsInclude(line)
    ensures var r := ExpandLine(env, sp, line, st, fuel);
            var s := Resolve(env, IncludeName(line), sp, StartSearch(line, st), fuel);
            var hits := Hits(env, IncludeName(line), sp);
            var n := |st.node.includeFiles|;
            (!r.status.Ok? ==> r.status == s.status && r.out == st.out) &&
            (r.status.Ok? && hits == [] ==>
               r == st.(out := st.out + line + "\n",
                        node := PushChild(st.node, FileNode(IncludeName(line), [], NotFound, IsSystemInclude(line))))) &&
            (r.status.Ok? && hits != [] ==>
               |r.node.includeFiles| == n + |hits| &&
               r.node.includeFiles[n + |hits| - 1].name == hits[|hits| - 1] &&
               (r.node.includeFiles[n + |hits| - 1].state == Expended ==>
                  r.out == st.out + "// " + line + "\n" + s.content + "// End " + line + "\n") &&
               (r.node.includeFiles[n + |hits| - 1].state == AlreadyIncluded ==>
                  r.out == st.out + "// " + line + " (omitted because it has been expended)\n"))
  {
    var name := IncludeName(line);
    var s0 := StartSearch(line, st);
    var s := Resolve(env, name, sp, s0, fuel);
    if s.status.Ok? {
      EveryHitCounts(env, name, sp, s0, fuel);
      if Hits(env, name, sp) == [] {
        NoHitNoChange(env, name, sp, s0, fuel);
      }
    }
  }

  /** The search loop over `ps1 + ps2` is the loop over `ps1` and then,
      from the state it leaves, the loop over `ps2`. */
  lemma {:induction false} ResolveConcat(env: Env, name: string, ps1: seq<Path>, ps2: seq<Path>, s: Search, fuel: nat)
    ensures Resolve(env, name, ps1 + ps2, s, fuel) == Resolve(env, name, ps2, Resolve(env, name, ps1, s, fuel), fuel)
    decreases |ps1|, 2
  {
    if ps1 == [] {
      assert ps1 + ps2 == ps2;
    } else if s.status.Ok? {
      assert (ps1 + ps2)[0] == ps1[0] && (ps1 + ps2)[1..] == ps1[1..] + ps2;
      if !env.fs.isRegularFile(env.fs.join(ps1[0], name)) {
        ResolveConcat(env, name, ps1[1..], ps2, s, fuel);
      } else {
        ResolveHitConcat(env, name, ps1, ps2, s, fuel);
      }
    }
  }

  lemma {:induction false} ResolveHitConcat(env: Env, name: string, ps1: seq<Path>, ps2: seq<Path>, s: Search, fuel: nat)
    requires ps1 != [] && s.status.Ok?
    ensures ResolveHit(env, name, ps1 + ps2, s, fuel) == Resolve(env, name, ps2, ResolveHit(env, name, ps1, s, fuel), fuel)
    decreases |ps1|, 1
  {
    assert (ps1 + ps2)[0] == ps1[0] && (ps1 + ps2)[1..] == ps1[1..] + ps2;
    var temp := s.temp.(name := env.fs.canonical(env.fs.join(ps1[0], name)));
    if !env.includeAll && temp.name in s.ledger {
      var temp' := temp.(state := AlreadyIncluded);
      ResolveConcat(env, name, ps1[1..], ps2, s.(temp := temp', found := true, node := PushChild(s.node, temp')), fuel);
    } else if !(env.includeAll && fuel == 0) {
      ExpandHitConcat(env, name, ps1, ps2, s, temp.(state := Expended), fuel);
    }
  }

  lemma {:induction false} ExpandHitConcat(env: Env, name: string, ps1: seq<Path>, ps2: seq<Path>, s: Search, temp: FileNode, fuel: nat)
    requires ps1 != [] && s.status.Ok?
    requires env.includeAll ==> fuel > 0
    requires env.includeAll || temp.name !in s.ledger
    requires temp.isAngle == s.temp.isAngle
    ensures ExpandHit(env, name, ps1 + ps2, s, temp, fuel) == Resolve(env, name, ps2, ExpandHit(env, name, ps1, s, temp, fuel), fuel)
    decreases |ps1|, 0
  {
    assert (ps1 + ps2)[1..] == ps1[1..] + ps2;
    var f := ExpandFile(env, temp, s.content, s.ledger, if env.includeAll then fuel - 1 else fuel);
    if f.status.Ok? {
      var s1 := s.(temp := f.node, found := true, content := f.out, ledger := f.ledger,
                   expansions := s.expansions + f.expansions, node := PushChild(s.node, f.node));
      ResolveConcat(env, name, ps1[1..], ps2, s1, fuel);
    }
  }

  /** The rule for every hit of the search loop, with include_all off:
      when the loop reaches a hit directory `d` after the directories
      `ps1`, in the state `m` they left, the child it pushes is an
      AlreadyIncluded copy of `temp` if the hit's canonical path is in the
      ledger at that point, and otherwise the node of that path expanded
      from `m`'s content and ledger. */
  lemma HitDecidedByLedger(env: Env, name: string, ps1: seq<Path>, d: Path, ps2: seq<Path>, s: Search, fuel: nat)
    requires !env.includeAll && s.status.Ok? && env.fs.isRegularFile(env.fs.join(d, name))
    ensures var m := Resolve(env, name, ps1, s, fuel);
            var h := env.fs.canonical(env.fs.join(d, name));
            var r := Resolve(env, name, ps1 + [d] + ps2, s, fuel);
            var n := |m.node.includeFiles|;
            r.status.Ok? ==>
              m.status.Ok? && Extends(m.node, r.node) && n < |r.node.includeFiles| &&
              (h in m.ledger ==> r.node.includeFiles[n] == m.temp.(name := h, state := AlreadyIncluded)) &&
              (h !in m.ledger ==>
                 r.node.includeFiles[n] == ExpandFile(env, m.temp.(name := h, state := Expended), m.content, m.ledger, fuel).node &&
                 r.node.includeFiles[n].state == Expended)
  {
    var m := Resolve(env, name, ps1, s, fuel);
    var h := env.fs.canonical(env.fs.join(d, name));
    var ps := [d] + ps2;
    assert ps1 + [d] + ps2 == ps1 + ps;
    ResolveConcat(env, name, ps1, ps, s, fuel);
    assert ps[0] == d && ps[1..] == ps2;
    if m.status.Ok? {
      if h in m.ledger {
        ExpanderSteps.SearchAlready(env, name, ps, m, fuel);
      } else {
        var t := m.temp.(name := h, state := Expended);
        ExpanderSteps.SearchExpand(env, name, ps, m, fuel);
        if ExpandFile(env, t, m.content, m.ledger, fuel).status.Ok? {
          ExpanderSteps.HitExpanded(env, name, ps, m, t, fuel, fuel);
        } else {
          ExpanderSteps.HitFailed(env, name, ps, m, t, fuel, fuel);
        }
      }
    }
  }

  /** As written, with include_all off, a directive whose file is found
      twice (say through the including file's own directory and again
      through an include path) expands the file at the first hit and
      enters it into the ledger, but the second hit then marks `temp`
      AlreadyIncluded, so only the omitted note is emitted and the
      expanded text is dropped. */
  lemma DuplicateDirectoryOmits(env: Env, d1: Path, d2: Path, line: string, st: Scan, fuel: nat)
    requires !env.includeAll && st.status.Ok? && IsInclude(line)
    requires env.fs.isRegularFile(env.fs.join(d1, IncludeName(line)))
    requires env.fs.isRegularFile(env.fs.join(d2, IncludeName(line)))
    requires env.fs.canonical(env.fs.join(d1, IncludeName(line))) == env.fs.canonical(env.fs.join(d2, IncludeName(line)))
    requires var h := env.fs.canonical(env.fs.join(d1, IncludeName(line)));
             h !in st.ledger && ExpandFile(env, FileNode(h, [], Expended, IsSystemInclude(line)), "", st.ledger, fuel).status.Ok?
    ensures var h := env.fs.canonical(env.fs.join(d1, IncludeName(line)));
            var r := ExpandLine(env, [d1, d2], line, st, fuel);
            r.status.Ok? && h in r.ledger && h !in st.ledger &&
            r.out == st.out + "// " + line + " (omitted because it has been expended)\n"
  {
    var s := Resolve(env, IncludeName(line), [d1, d2], StartSearch(line, st), fuel);
    DuplicateSearch(env, IncludeName(line), d1, d2, StartSearch(line, st), fuel);
    assert ExpandLine(env, [d1, d2], line, st, fuel) == AfterSearch(st, line, IncludeName(line), s);
  }

  /** The search loop of DuplicateDirectoryOmits: the first hit expands the
      file, the second finds it in the ledger, and `temp` ends AlreadyIncluded. */
  lemma DuplicateSearch(env: Env, name: string, d1: Path, d2: Path, s0: Search, fuel: nat)
    requires !env.includeAll && s0.status.Ok?
    requires env.fs.isRegularFile(env.fs.join(d1, name)) && env.fs.isRegularFile(env.fs.join(d2, name))
    requires env.fs.canonical(env.fs.join(d1, name)) == env.fs.canonical(env.fs.join(d2, name))
    requires var h := env.fs.canonical(env.fs.join(d1, name));
             h !in s0.ledger && ExpandFile(env, s0.temp.(name := h, state := Expended), s0.content, s0.ledger, fuel).status.Ok?
    ensures var h := env.fs.canonical(env.fs.join(d1, name));
            var s := Resolve(env, name, [d1, d2], s0, fuel);
            s.status.Ok? && s.found && s.temp.state == AlreadyIncluded && h in s.ledger
  {
    var h := env.fs.canonical(env.fs.join(d1, name));
    var t := s0.temp.(name := h, state := Expended);
    var f := ExpandFile(env, t, s0.content, s0.ledger, fuel);
    assert CanOpen(env.fs, h) && h in f.ledger;
    ExpanderSteps.SearchExpand(env, name, [d1, d2], s0, fuel);
    ExpanderSteps.HitExpanded(env, name, [d1, d2], s0, t, fuel, fuel);
    var s1 := s0.(temp := f.node, found := true, content := f.out, ledger := f.ledger,
                  expansions := s0.expansions + f.expansions, node := PushChild(s0.node, f.node));
    assert [d1, d2][1..] == [d2];
    ExpanderSteps.SearchAlready(env, name, [d2], s1, fuel);
  }

  /** One copy of `t` per hit, renamed to the hit and given `state`. */
  function Copies(t: FileNode, hits: seq<Path>, state: IncludeState): (cs: seq<FileNode>)
    ensures |cs| == |hits|
    ensures forall k :: 0 <= k < |hits| ==> cs[k] == t.(name := hits[k], state := state)
  {
    if hits == [] then [] else [t.(name := hits[0], state := state)] + Copies(t, hits[1..], state)
  }

  /** With include_all off, a search in which every hit is already in the
      ledger changes neither the ledger, the content nor the count of
      expansions, and appends one AlreadyIncluded copy of `temp` per hit. */
  lemma {:induction false} AllIncluded(env: Env, name: string, ps: seq<Path>, s: Search, fuel: nat)
    requires !env.includeAll && s.status.Ok?
    requires forall k :: 0 <= k < |Hits(env, name, ps)| ==> Hits(env, name, ps)[k] in s.ledger
    ensures var r := Resolve(env, name, ps, s, fuel);
            var hits := Hits(env, name, ps);
            r.status.Ok? && r.ledger == s.ledger && r.content == s.content && r.expansions == s.expansions &&
            r.found == (s.found || hits != []) &&
            r.node == PushAll(s.node, Copies(s.temp, hits, AlreadyIncluded)) &&
            (hits != [] ==> r.temp == s.temp.(name := hits[|hits| - 1], state := AlreadyIncluded)) &&
            (hits == [] ==> r.temp == s.temp)
    decreases |ps|, 1
  {
    if ps != [] {
      if !env.fs.isRegularFile(env.fs.join(ps[0], name)) {
        assert Hits(env, name, ps) == [] + Hits(env, name, ps[1..]) == Hits(env, name, ps[1..]);
        assert Resolve(env, name, ps, s, fuel) == Resolve(env, name, ps[1..], s, fuel);
        AllIncluded(env, name, ps[1..], s, fuel);
      } else {
        AllIncludedHit(env, name, ps, s, fuel);
      }
    }
  }

  /** The step of AllIncluded at a hit. */
  lemma {:induction false} AllIncludedHit(env: Env, name: string, ps: seq<Path>, s: Search, fuel: nat)
    requires !env.includeAll && s.status.Ok? && ps != [] && env.fs.isRegularFile(env.fs.join(ps[0], name))
    requires forall k :: 0 <= k < |Hits(env, name, ps)| ==> Hits(env, name, ps)[k] in s.ledger
    ensures var r := ResolveHit(env, name, ps, s, fuel);
            var hits := Hits(env, name, ps);
            r.status.Ok? && r.ledger == s.ledger && r.content == s.content && r.expansions == s.expansions &&
            r.found && hits != [] &&
            r.node == PushAll(s.node, Copies(s.temp, hits, AlreadyIncluded)) &&
            r.temp == s.temp.(name := hits[|hits| - 1], state := AlreadyIncluded)
    decreases |ps|, 0
  {
    var hits := Hits(env, name, ps);
    var rest := Hits(env, name, ps[1..]);
    var h := env.fs.canonical(env.fs.join(ps[0], name));
    assert hits == [h] + rest;
    var temp' := s.temp.(name := h, state := AlreadyIncluded);
    var s1 := s.(temp := temp', found := true, node := PushChild(s.node, temp'));
    ConsFacts(s.temp, h, rest, s.ledger, s.node.includeFiles);
    assert ResolveHit(env, name, ps, s, fuel) == Resolve(env, name, ps[1..], s1, fuel);
    AllIncluded(env, name, ps[1..], s1, fuel);
    CopiesIgnoreName(s1.temp, s.temp, rest, AlreadyIncluded);
  }

  /** The sequence facts behind AllIncludedHit. */
  lemma ConsFacts(t: FileNode, h: Path, rest: seq<Path>, l: set<Path>, before: seq<FileNode>)
    requires forall k :: 0 <= k < |[h] + rest| ==> ([h] + rest)[k] in l
    ensures h in l && forall k :: 0 <= k < |rest| ==> rest[k] in l
    ensures rest != [] ==> ([h] + rest)[|rest|] == rest[|rest| - 1]
    ensures var c := t.(name := h, state := AlreadyIncluded);
            before + Copies(t, [h] + rest, AlreadyIncluded) == (before + [c]) + Copies(t, rest, AlreadyIncluded)
  {
    var hits := [h] + rest;
    assert hits[0] == h;
    forall k | 0 <= k < |rest| ensures rest[k] in l {
      assert rest[k] == hits[k + 1];
    }
    var c := t.(name := h, state := AlreadyIncluded);
    var cs := Copies(t, rest, AlreadyIncluded);
    assert hits[1..] == rest;
    assert Copies(t, hits, AlreadyIncluded) == [c] + cs;
    assert (before + [c]) + cs == before + ([c] + cs);
  }

  /** `node` with `cs` appended to its children. */
  function PushAll(node: FileNode, cs: seq<FileNode>): FileNode {
    node.(includeFiles := node.includeFiles + cs)
  }

  /** Copies do not depend on the name and state of the original. */
  lemma CopiesIgnoreName(t: FileNode, t': FileNode, hits: seq<Path>, state: IncludeState)
    requires t.includeFiles == t'.includeFiles && t.isAngle == t'.isAngle
    ensures Copies(t, hits, state) == Copies(t', hits, state)
  {
  }

  /** Duplicate suppression: with include_all off, a directive whose every
      hit is already in the ledger emits only the omitted note and adds one
      AlreadyIncluded child per hit; the ledger is unchanged. */
  lemma DuplicateSuppressed(env: Env, sp: seq<Path>, line: string, st: Scan, fuel: nat)
    requires !env.includeAll && st.status.Ok? && IsInclude(line)
    requires Hits(env, IncludeName(line), sp) != []
    requires forall k :: 0 <= k < |Hits(env, IncludeName(line), sp)| ==> Hits(env, IncludeName(line), sp)[k] in st.ledger
    ensures var hits := Hits(env, IncludeName(line), sp);
            ExpandLine(env, sp, line, st, fuel) ==
            st.(out := st.out + "// " + line + " (omitted because it has been expended)\n",
                node := PushAll(st.node, Copies(InitialTemp(line), hits, AlreadyIncluded)))
  {
    AllIncluded(env, IncludeName(line), sp, StartSearch(line, st), fuel);
  }

  /** Every directive among `lines` finds only files in `entered`. */
  predicate AllSuppressed(env: Env, sp: seq<Path>, lines: seq<string>, entered: set<Path>) {
    forall k :: 0 <= k < |lines| && IsInclude(lines[k]) ==>
      forall j :: 0 <= j < |Hits(env, IncludeName(lines[k]), sp)| ==> Hits(env, IncludeName(lines[k]), sp)[j] in entered
  }

  /** The text one line leaves when nothing is expanded: the line itself
      when it is plain or finds nothing, else the omitted note. */
  function SuppressedLine(env: Env, sp: seq<Path>, line: string): string {
    if IsInclude(line) && Hits(env, IncludeName(line), sp) != [] then
      "// " + line + " (omitted because it has been expended)\n"
    else
      line + "\n"
  }

  /** The children one line adds when nothing is expanded: none for a
      plain line, a NotFound node for a name found nowhere, else one
      AlreadyIncluded copy of `temp` per hit. */
  function SuppressedNodes(env: Env, sp: seq<Path>, line: string): seq<FileNode> {
    if !IsInclude(line) then []
    else if Hits(env, IncludeName(line), sp) == [] then
      [FileNode(IncludeName(line), [], NotFound, IsSystemInclude(line))]
    else
      Copies(InitialTemp(line), Hits(env, IncludeName(line), sp), AlreadyIncluded)
  }

  function SuppressedText(env: Env, sp: seq<Path>, lines: seq<string>): string {
    if lines == [] then "" else SuppressedLine(env, sp, lines[0]) + SuppressedText(env, sp, lines[1..])
  }

  function SuppressedChildren(env: Env, sp: seq<Path>, lines: seq<string>): seq<FileNode> {
    if lines == [] then [] else SuppressedNodes(env, sp, lines[0]) + SuppressedChildren(env, sp, lines[1..])
  }

  /** One line whose hits are all in the ledger, with include_all off. */
  lemma SuppressedStep(env: Env, sp: seq<Path>, line: string, st: Scan, fuel: nat)
    requires !env.includeAll && st.status.Ok?
    requires IsInclude(line) ==>
               forall j :: 0 <= j < |Hits(env, IncludeName(line), sp)| ==> Hits(env, IncludeName(line), sp)[j] in st.ledger
    ensures ExpandLine(env, sp, line, st, fuel) ==
            st.(out := st.out + SuppressedLine(env, sp, line), node := PushAll(st.node, SuppressedNodes(env, sp, line)))
  {
    if !IsInclude(line) {
      PlainStep(env, sp, line, st, fuel);
    } else if Hits(env, IncludeName(line), sp) == [] {
      NotFoundStep(env, sp, line, st, fuel);
    } else {
      DuplicateStep(env, sp, line, st, fuel);
    }
  }

  lemma PlainStep(env: Env, sp: seq<Path>, line: string, st: Scan, fuel: nat)
    requires st.status.Ok? && !IsInclude(line)
    ensures ExpandLine(env, sp, line, st, fuel) == st.(out := st.out + (line + "\n"), node := PushAll(st.node, []))
  {
    assert st.out + line + "\n" == st.out + (line + "\n");
    assert st.node.includeFiles + [] == st.node.includeFiles;
  }

  lemma DuplicateStep(env: Env, sp: seq<Path>, line: string, st: Scan, fuel: nat)
    requires !env.includeAll && st.status.Ok? && IsInclude(line)
    requires Hits(env, IncludeName(line), sp) != []
    requires forall j :: 0 <= j < |Hits(env, IncludeName(line), sp)| ==> Hits(env, IncludeName(line), sp)[j] in st.ledger
    ensures ExpandLine(env, sp, line, st, fuel) ==
            st.(out := st.out + ("// " + line + " (omitted because it has been expended)\n"),
                node := PushAll(st.node, Copies(InitialTemp(line), Hits(env, IncludeName(line), sp), AlreadyIncluded)))
  {
    var q, x := "// ", " (omitted because it has been expended)\n";
    DuplicateSuppressed(env, sp, line, st, fuel);
    Regroup(st.out + q, line, x);
    Regroup(st.out, q, line + x);
    Regroup(q, line, x);
  }

  /** A directive that finds nothing copies the line and adds a NotFound
      child named by the extracted name. */
  lemma NotFoundStep(env: Env, sp: seq<Path>, line: string, st: Scan, fuel: nat)
    requires st.status.Ok? && IsInclude(line) && Hits(env, IncludeName(line), sp) == []
    ensures ExpandLine(env, sp, line, st, fuel) ==
            st.(out := st.out + (line + "\n"),
                node := PushAll(st.node, [FileNode(IncludeName(line), [], NotFound, IsSystemInclude(line))]))
  {
    var s0 := StartSearch(line, st);
    NoHitNoChange(env, IncludeName(line), sp, s0, fuel);
    assert ExpandLine(env, sp, line, st, fuel) == AfterSearch(st, line, IncludeName(line), s0);
    assert st.out + line + "\n" == st.out + (line + "\n");
  }

  /** With include_all off, a read loop whose directives find only files
      already in the ledger expands nothing: it emits each plain line or
      note in order, adds the children of each line in order, and leaves
      the ledger and the count as they were. */
  lemma {:induction false} SuppressedLines(env: Env, sp: seq<Path>, lines: seq<string>, st: Scan, fuel: nat)
    requires !env.includeAll && st.status.Ok? && AllSuppressed(env, sp, lines, st.ledger)
    ensures ScanLines(env, sp, lines, st, fuel) ==
            st.(out := st.out + SuppressedText(env, sp, lines), node := PushAll(st.node, SuppressedChildren(env, sp, lines)))
    decreases |lines|
  {
    if lines == [] {
      assert st.out + "" == st.out && st.node.includeFiles + [] == st.node.includeFiles;
    } else {
      SuppressedStep(env, sp, lines[0], st, fuel);
      var st' := ExpandLine(env, sp, lines[0], st, fuel);
      assert AllSuppressed(env, sp, lines[1..], st'.ledger) by {
        forall k | 0 <= k < |lines[1..]| ensures lines[1..][k] == lines[k + 1] { }
      }
      SuppressedLines(env, sp, lines[1..], st', fuel);
      GlueScans(st, SuppressedLine(env, sp, lines[0]), SuppressedNodes(env, sp, lines[0]),
                SuppressedText(env, sp, lines[1..]), SuppressedChildren(env, sp, lines[1..]));
    }
  }

  /** Appending twice to a scan's text and children is appending once. */
  lemma GlueScans(st: Scan, x: string, a: seq<FileNode>, y: string, b: seq<FileNode>)
    ensures var st' := st.(out := st.out + x, node := PushAll(st.node, a));
            st'.(out := st'.out + y, node := PushAll(st'.node, b)) == st.(out := st.out + (x + y), node := PushAll(st.node, a + b))
  {
    assert (st.out + x) + y == st.out + (x + y);
    assert (st.node.includeFiles + a) + b == st.node.includeFiles + (a + b);
  }

  /** A file including itself, or any file it is being expanded inside:
      the file is entered into the ledger before its lines are read, so
      with include_all off such a directive stops the cycle at once as
      AlreadyIncluded children and the omitted note, and nothing is
      expanded below the file. */
  lemma SelfIncludeStops(env: Env, file: FileNode, out: string, ledger: set<Path>, fuel: nat)
    requires !env.includeAll && file.name !in ledger && CanOpen(env.fs, file.name)
    requires AllSuppressed(env, SearchPaths(env, file), Split(env.fs.contents[file.name]), ledger + {file.name})
    ensures var sp, lines := SearchPaths(env, file), Split(env.fs.contents[file.name]);
            ExpandFile(env, file, out, ledger, fuel) ==
            Scan(Ok, out + SuppressedText(env, sp, lines), PushAll(file, SuppressedChildren(env, sp, lines)),
                 ledger + {file.name}, 1)
  {
    SuppressedLines(env, SearchPaths(env, file), Split(env.fs.contents[file.name]),
                    Scan(Ok, out, file, ledger + {file.name}, 1), fuel);
  }

  /** The smallest case of SelfIncludeStops: a file whose one line includes
      only itself. */
  lemma SelfIncludeOneLine(env: Env, file: FileNode, out: string, ledger: set<Path>, fuel: nat)
    requires !env.includeAll && file.name !in ledger && CanOpen(env.fs, file.name)
    requires var c := env.fs.contents[file.name];
             Split(c) == [c] && IsInclude(c) && Hits(env, IncludeName(c), SearchPaths(env, file)) == [file.name]
    ensures var c := env.fs.contents[file.name];
            ExpandFile(env, file, out, ledger, fuel) ==
            Scan(Ok, out + "// " + c + " (omitted because it has been expended)\n",
                 PushChild(file, FileNode(file.name, [], AlreadyIncluded, IsSystemInclude(c))),
                 ledger + {file.name}, 1)
  {
    var c := env.fs.contents[file.name];
    var sp := SearchPaths(env, file);
    var note := "// " + c + " (omitted because it has been expended)\n";
    var child := FileNode(file.name, [], AlreadyIncluded, IsSystemInclude(c));
    OneSelfLine(env, sp, c, file.name, ledger + {file.name});
    SelfIncludeStops(env, file, out, ledger, fuel);
    Regroup(out + "// ", c, " (omitted because it has been expended)\n");
    Regroup(out, "// ", c + " (omitted because it has been expended)\n");
    Regroup("// ", c, " (omitted because it has been expended)\n");
  }

  /** What SuppressedText and SuppressedChildren give for one directive
      line whose one hit is `name`. */
  lemma OneSelfLine(env: Env, sp: seq<Path>, c: string, name: Path, entered: set<Path>)
    requires IsInclude(c) && Hits(env, IncludeName(c), sp) == [name] && name in entered
    ensures AllSuppressed(env, sp, [c], entered)
    ensures SuppressedText(env, sp, [c]) == "// " + c + " (omitted because it has been expended)\n"
    ensures SuppressedChildren(env, sp, [c]) == [FileNode(name, [], AlreadyIncluded, IsSystemInclude(c))]
  {
    assert [c][1..] == [];
    OneSelfNode(env, sp, c, name);
    assert SuppressedText(env, sp, [c]) == SuppressedLine(env, sp, c) + "";
  }

  lemma OneSelfNode(env: Env, sp: seq<Path>, c: string, name: Path)
    requires IsInclude(c) && Hits(env, IncludeName(c), sp) == [name]
    ensures SuppressedChildren(env, sp, [c]) == [FileNode(name, [], AlreadyIncluded, IsSystemInclude(c))]
  {
    var child := FileNode(name, [], AlreadyIncluded, IsSystemInclude(c));
    assert [c][1..] == [];
    assert Copies(InitialTemp(c), [name], AlreadyIncluded) == [child] + Copies(InitialTemp(c), [], AlreadyIncluded);
    assert SuppressedChildren(env, sp, [c]) == SuppressedNodes(env, sp, c) + [];
  }

  /** A search list with exactly one hit expands that hit, if it is new or
      include_all is on, and nothing else. */
  lemma {:induction false} SingleHit(env: Env, name: string, ps: seq<Path>, s: Search, fuel: nat)
    requires s.status.Ok? && |Hits(env, name, ps)| == 1
    requires env.includeAll ==> fuel > 0
    requires env.includeAll || Hits(env, name, ps)[0] !in s.ledger
    requires var h := Hits(env, name, ps)[0];
             ExpandFile(env, s.temp.(name := h, state := Expended), s.content, s.ledger,
                        if env.includeAll then fuel - 1 else fuel).status.Ok?
    ensures var h := Hits(env, name, ps)[0];
            var f := ExpandFile(env, s.temp.(name := h, state := Expended), s.content, s.ledger,
                                if env.includeAll then fuel - 1 else fuel);
            Resolve(env, name, ps, s, fuel) ==
            s.(temp := f.node, found := true, content := f.out, ledger := f.ledger,
               expansions := s.expansions + f.expansions, node := PushChild(s.node, f.node))
    decreases |ps|
  {
    var rest := Hits(env, name, ps[1..]);
    if !env.fs.isRegularFile(env.fs.join(ps[0], name)) {
      assert Hits(env, name, ps) == [] + rest == rest;
      assert Resolve(env, name, ps, s, fuel) == Resolve(env, name, ps[1..], s, fuel);
      SingleHit(env, name, ps[1..], s, fuel);
    } else {
      var h := env.fs.canonical(env.fs.join(ps[0], name));
      assert Hits(env, name, ps) == [h] + rest;
      assert s.temp.(name := h).(state := Expended) == s.temp.(name := h, state := Expended);
      assert Resolve(env, name, ps, s, fuel) == ResolveHit(env, name, ps, s, fuel)
          == ExpandHit(env, name, ps, s, s.temp.(name := h, state := Expended), fuel);
      ExpandOnlyHit(env, name, ps, s, s.temp.(name := h, state := Expended), fuel);
    }
  }

  /** The step of SingleHit at the one hit: nothing follows it. */
  lemma ExpandOnlyHit(env: Env, name: string, ps: seq<Path>, s: Search, temp: FileNode, fuel: nat)
    requires ps != [] && s.status.Ok? && Hits(env, name, ps[1..]) == []
    requires env.includeAll ==> fuel > 0
    requires env.includeAll || temp.name !in s.ledger
    requires temp.isAngle == s.temp.isAngle
    requires ExpandFile(env, temp, s.content, s.ledger, if env.includeAll then fuel - 1 else fuel).status.Ok?
    ensures var f := ExpandFile(env, temp, s.content, s.ledger, if env.includeAll then fuel - 1 else fuel);
            ExpandHit(env, name, ps, s, temp, fuel) ==
            s.(temp := f.node, found := true, content := f.out, ledger := f.ledger,
               expansions := s.expansions + f.expansions, node := PushChild(s.node, f.node))
  {
    var f := ExpandFile(env, temp, s.content, s.ledger, if env.includeAll then fuel - 1 else fuel);
    var s1 := s.(temp := f.node, found := true, content := f.out, ledger := f.ledger,
                 expansions := s.expansions + f.expansions, node := PushChild(s.node, f.node));
    assert ExpandHit(env, name, ps, s, temp, fuel) == Resolve(env, name, ps[1..], s1, fuel);
    NoHitNoChange(env, name, ps[1..], s1, fuel);
  }

  /** A directive with exactly one new hit: the file's text is wrapped in the
      two markers, its node is the one new child, and the ledger and count
      are those the nested expansion left. */
  lemma SingleHitExpanded(env: Env, sp: seq<Path>, line: string, st: Scan, fuel: nat)
    requires st.status.Ok? && IsInclude(line) && |Hits(env, IncludeName(line), sp)| == 1
    requires env.includeAll ==> fuel > 0
    requires env.includeAll || Hits(env, IncludeName(line), sp)[0] !in st.ledger
    requires var h := Hits(env, IncludeName(line), sp)[0];
             ExpandFile(env, FileNode(h, [], Expended, IsSystemInclude(line)), "", st.ledger,
                        if env.includeAll then fuel - 1 else fuel).status.Ok?
    ensures var h := Hits(env, IncludeName(line), sp)[0];
            var f := ExpandFile(env, FileNode(h, [], Expended, IsSystemInclude(line)), "", st.ledger,
                                if env.includeAll then fuel - 1 else fuel);
            ExpandLine(env, sp, line, st, fuel) ==
            st.(out := st.out + "// " + line + "\n" + f.out + "// End " + line + "\n",
                node := PushChild(st.node, f.node), ledger := f.ledger, expansions := st.expansions + f.expansions)
  {
    var s0 := StartSearch(line, st);
    var h := Hits(env, IncludeName(line), sp)[0];
    assert s0.temp.(name := h, state := Expended) == FileNode(h, [], Expended, IsSystemInclude(line));
    SingleHit(env, IncludeName(line), sp, s0, fuel);
  }

  /* With include_all off every expansion enters a new file into the
     ledger, so the count of expansions is the growth of the ledger. */

  lemma {:induction false} CountFile(env: Env, file: FileNode, out: string, ledger: set<Path>, fuel: nat)
    requires !env.includeAll && file.name !in ledger
    ensures var r := ExpandFile(env, file, out, ledger, fuel);
            r.expansions == |r.ledger - ledger|
    decreases |Files(env) - ledger|, 0
  {
    if CanOpen(env.fs, file.name) {
      Ledger.EnterShrinks(Files(env), ledger, file.name);
      var st := Scan(Ok, out, file, ledger + {file.name}, 1);
      var lines := Split(env.fs.contents[file.name]);
      CountLines(env, SearchPaths(env, file), lines, st, fuel);
      Ledger.GrowthAfterInsert(ledger, file.name, ScanLines(env, SearchPaths(env, file), lines, st, fuel).ledger);
    }
  }

  lemma {:induction false} CountLines(env: Env, sp: seq<Path>, lines: seq<string>, st: Scan, fuel: nat)
    requires !env.includeAll
    ensures var r := ScanLines(env, sp, lines, st, fuel);
            r.expansions == st.expansions + |r.ledger - st.ledger|
    decreases |Files(env) - st.ledger|, 1, |lines|
  {
    if lines != [] && st.status.Ok? {
      CountLine(env, sp, lines[0], st, fuel);
      var st' := ExpandLine(env, sp, lines[0], st, fuel);
      Ledger.OutsideShrinks(Files(env), st.ledger, st'.ledger);
      CountLines(env, sp, lines[1..], st', fuel);
      Ledger.GrowthAdds(st.ledger, st'.ledger, ScanLines(env, sp, lines[1..], st', fuel).ledger);
    }
  }

  lemma {:induction false} CountLine(env: Env, sp: seq<Path>, line: string, st: Scan, fuel: nat)
    requires !env.includeAll && st.status.Ok?
    ensures var r := ExpandLine(env, sp, line, st, fuel);
            r.expansions == st.expansions + |r.ledger - st.ledger|
    decreases |Files(env) - st.ledger|, 1, 0, |sp| + 1
  {
    if IsInclude(line) {
      CountResolve(env, IncludeName(line), sp, StartSearch(line, st), fuel);
    }
  }

  lemma {:induction false} CountResolve(env: Env, name: string, ps: seq<Path>, s: Search, fuel: nat)
    requires !env.includeAll
    ensures var r := Resolve(env, name, ps, s, fuel);
            r.expansions == s.expansions + |r.ledger - s.ledger|
    decreases |Files(env) - s.ledger|, 1, 0, |ps|, 3
  {
    if ps != [] && s.status.Ok? {
      if !env.fs.isRegularFile(env.fs.join(ps[0], name)) {
        CountResolve(env, name, ps[1..], s, fuel);
      } else {
        CountHit(env, name, ps, s, fuel);
      }
    }
  }

  lemma {:induction false} CountHit(env: Env, name: string, ps: seq<Path>, s: Search, fuel: nat)
    requires !env.includeAll && ps != [] && s.status.Ok?
    ensures var r := ResolveHit(env, name, ps, s, fuel);
            r.expansions == s.expansions + |r.ledger - s.ledger|
    decreases |Files(env) - s.ledger|, 1, 0, |ps|, 2
  {
    var temp := s.temp.(name := env.fs.canonical(env.fs.join(ps[0], name)));
    if temp.name in s.ledger {
      var temp' := temp.(state := AlreadyIncluded);
      CountResolve(env, name, ps[1..], s.(temp := temp', found := true, node := PushChild(s.node, temp')), fuel);
    } else {
      CountExpand(env, name, ps, s, temp.(state := Expended), fuel);
    }
  }

  lemma {:induction false} CountExpand(env: Env, name: string, ps: seq<Path>, s: Search, temp: FileNode, fuel: nat)
    requires !env.includeAll && ps != [] && s.status.Ok? && temp.name !in s.ledger
    requires temp.isAngle == s.temp.isAngle
    ensures var r := ExpandHit(env, name, ps, s, temp, fuel);
            r.expansions == s.expansions + |r.ledger - s.ledger|
    decreases |Files(env) - s.ledger|, 1, 0, |ps|, 1
  {
    CountFile(env, temp, s.content, s.ledger, fuel);
    var f := ExpandFile(env, temp, s.content, s.ledger, fuel);
    if f.status.Ok? {
      CountGoOn(env, name, ps, s, temp, fuel);
    } else {
      HitFailed(env, name, ps, s, temp, fuel, fuel);
    }
  }

  lemma {:induction false} CountGoOn(env: Env, name: string, ps: seq<Path>, s: Search, temp: FileNode, fuel: nat)
    requires !env.includeAll && ps != [] && s.status.Ok? && temp.name !in s.ledger
    requires temp.isAngle == s.temp.isAngle
    requires var f := ExpandFile(env, temp, s.content, s.ledger, fuel);
             f.status.Ok? && f.expansions == |f.ledger - s.ledger|
    ensures var r := ExpandHit(env, name, ps, s, temp, fuel);
            r.expansions == s.expansions + |r.ledger - s.ledger|
    decreases |Files(env) - s.ledger|, 1, 0, |ps|, 0
  {
    var f := ExpandFile(env, temp, s.content, s.ledger, fuel);
    var s' := s.(temp := f.node, found := true, content := f.out, ledger := f.ledger,
                 expansions := s.expansions + f.expansions, node := PushChild(s.node, f.node));
    HitExpanded(env, name, ps, s, temp, fuel, fuel);
    var r := Resolve(env, name, ps[1..], s', fuel);
    assert r == ExpandHit(env, name, ps, s, temp, fuel);
    Ledger.OutsideShrinks(Files(env), s.ledger, f.ledger);
    CountResolve(env, name, ps[1..], s', fuel);
    assert r.expansions == s.expansions + f.expansions + |r.ledger - f.ledger|;
    Ledger.GrowthAdds(s.ledger, f.ledger, r.ledger);
  }

  /** From an empty ledger with include_all off: the count of expansions
      is the number of files that entered the ledger, all of them files
      there are, so no file is expanded twice. */
  lemma OpensEachFileOnce(env: Env, file: FileNode, out: string, fuel: nat)
    requires !env.includeAll
    ensures var r := ExpandFile(env, file, out, {}, fuel);
            r.expansions == |r.ledger| && r.ledger <= Files(env) && r.expansions <= |Files(env)|
  {
    var r := ExpandFile(env, file, out, {}, fuel);
    CountFile(env, file, out, {}, fuel);
    assert r.ledger - {} == r.ledger;
    ExpansionsBounded(env, file, out, {}, fuel);
  }

  /** With include_all off the number of expansions one call makes is at
      most the number of openable files not yet in the ledger, and so at
      most the number of distinct files. */
  lemma ExpansionsBounded(env: Env, file: FileNode, out: string, ledger: set<Path>, fuel: nat)
    requires !env.includeAll && file.name !in ledger
    ensures ExpandFile(env, file, out, ledger, fuel).expansions <= |Files(env) - ledger| <= |Files(env)|
  {
    var r := ExpandFile(env, file, out, ledger, fuel);
    CountFile(env, file, out, ledger, fuel);
    Ledger.SubsetCard(r.ledger - ledger, Files(env) - ledger);
    Ledger.SubsetCard(Files(env) - ledger, Files(env));
  }

  /* With include_all off the fuel is never consumed, so the result does not
     depend on it: the model is then the unbounded recursion of the tool. */

  lemma {:induction false} FuelIrrelevantFile(env: Env, file: FileNode, out: string, ledger: set<Path>, f1: nat, f2: nat)
    requires !env.includeAll && file.name !in ledger
    ensures ExpandFile(env, file, out, ledger, f1) == ExpandFile(env, file, out, ledger, f2)
    decreases |Files(env) - ledger|, 0
  {
    if CanOpen(env.fs, file.name) {
      Ledger.EnterShrinks(Files(env), ledger, file.name);
      FuelIrrelevantLines(env, SearchPaths(env, file), Split(env.fs.contents[file.name]),
                          Scan(Ok, out, file, ledger + {file.name}, 1), f1, f2);
    }
  }

  lemma {:induction false} FuelIrrelevantLines(env: Env, sp: seq<Path>, lines: seq<string>, st: Scan, f1: nat, f2: nat)
    requires !env.includeAll
    ensures ScanLines(env, sp, lines, st, f1) == ScanLines(env, sp, lines, st, f2)
    decreases |Files(env) - st.ledger|, 1, |lines|
  {
    if lines != [] && st.status.Ok? {
      FuelIrrelevantLine(env, sp, lines[0], st, f1, f2);
      var st' := ExpandLine(env, sp, lines[0], st, f1);
      Ledger.OutsideShrinks(Files(env), st.ledger, st'.ledger);
      FuelIrrelevantLines(env, sp, lines[1..], st', f1, f2);
    }
  }

  lemma {:induction false} FuelIrrelevantLine(env: Env, sp: seq<Path>, line: string, st: Scan, f1: nat, f2: nat)
    requires !env.includeAll && st.status.Ok?
    ensures ExpandLine(env, sp, line, st, f1) == ExpandLine(env, sp, line, st, f2)
    decreases |Files(env) - st.ledger|, 1, 0, |sp| + 1
  {
    if IsInclude(line) {
      FuelIrrelevantResolve(env, IncludeName(line), sp, StartSearch(line, st), f1, f2);
    }
  }

  lemma {:induction false} FuelIrrelevantResolve(env: Env, name: string, ps: seq<Path>, s: Search, f1: nat, f2: nat)
    requires !env.includeAll
    ensures Resolve(env, name, ps, s, f1) == Resolve(env, name, ps, s, f2)
    decreases |Files(env) - s.ledger|, 1, 0, |ps|, 3
  {
    if ps != [] && s.status.Ok? {
      if !env.fs.isRegularFile(env.fs.join(ps[0], name)) {
        FuelIrrelevantResolve(env, name, ps[1..], s, f1, f2);
      } else {
        FuelIrrelevantHit(env, name, ps, s, f1, f2);
      }
    }
  }

  lemma {:induction false} FuelIrrelevantHit(env: Env, name: string, ps: seq<Path>, s: Search, f1: nat, f2: nat)
    requires !env.includeAll && ps != [] && s.status.Ok?
    ensures ResolveHit(env, name, ps, s, f1) == ResolveHit(env, name, ps, s, f2)
    decreases |Files(env) - s.ledger|, 1, 0, |ps|, 2
  {
    var temp := s.temp.(name := env.fs.canonical(env.fs.join(ps[0], name)));
    if temp.name in s.ledger {
      var temp' := temp.(state := AlreadyIncluded);
      FuelIrrelevantResolve(env, name, ps[1..], s.(temp := temp', found := true, node := PushChild(s.node, temp')), f1, f2);
    } else {
      FuelIrrelevantExpand(env, name, ps, s, temp.(state := Expended), f1, f2);
    }
  }

  lemma {:induction false} FuelIrrelevantExpand(env: Env, name: string, ps: seq<Path>, s: Search, temp: FileNode, f1: nat, f2: nat)
    requires !env.includeAll && ps != [] && s.status.Ok? && temp.name !in s.ledger
    requires temp.isAngle == s.temp.isAngle
    ensures ExpandHit(env, name, ps, s, temp, f1) == ExpandHit(env, name, ps, s, temp, f2)
    decreases |Files(env) - s.ledger|, 1, 0, |ps|, 1
  {
    FuelIrrelevantFile(env, temp, s.content, s.ledger, f1, f2);
    if ExpandFile(env, temp, s.content, s.ledger, f1).status.Ok? {
      FuelIrrelevantGoOn(env, name, ps, s, temp, f1, f2);
    } else {
      HitFailed(env, name, ps, s, temp, f1, f1);
      HitFailed(env, name, ps, s, temp, f2, f2);
    }
  }

  lemma {:induction false} FuelIrrelevantGoOn(env: Env, name: string, ps: seq<Path>, s: Search, temp: FileNode, f1: nat, f2: nat)
    requires !env.includeAll && ps != [] && s.status.Ok? && temp.name !in s.ledger
    requires temp.isAngle == s.temp.isAngle
    requires ExpandFile(env, temp, s.content, s.ledger, f1) == ExpandFile(env, temp, s.content, s.ledger, f2)
    requires ExpandFile(env, temp, s.content, s.ledger, f1).status.Ok?
    ensures ExpandHit(env, name, ps, s, temp, f1) == ExpandHit(env, name, ps, s, temp, f2)
    decreases |Files(env) - s.ledger|, 1, 0, |ps|, 0
  {
    var f := ExpandFile(env, temp, s.content, s.ledger, f1);
    var s' := s.(temp := f.node, found := true, content := f.out, ledger := f.ledger,
                 expansions := s.expansions + f.expansions, node := PushChild(s.node, f.node));
    HitExpanded(env, name, ps, s, temp, f1, f1);
    assert ExpandHit(env, name, ps, s, temp, f1) == Resolve(env, name, ps[1..], s', f1);
    HitExpanded(env, name, ps, s, temp, f2, f2);
    assert ExpandHit(env, name, ps, s, temp, f2) == Resolve(env, name, ps[1..], s', f2);
    Ledger.OutsideShrinks(Files(env), s.ledger, f.ledger);
    FuelIrrelevantResolve(env, name, ps[1..], s', f1, f2);
  }
}
