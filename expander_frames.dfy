/** The text already accumulated plays no part in an expansion: the read
    loop only appends to `out`, and the search loop only appends to
    `content`, so running with some text in front gives the same result
    with that text in front. */
module ExpanderFrames {
  import opened Text
  import opened Platform
  import opened Directive
  import opened Tree
  import opened Expander

  /** What follows the search loop, with `p` in front of the text. */
  lemma AfterSearchShift(st: Scan, line: string, name: string, s: Search, p: string)
    ensures var r := AfterSearch(st, line, name, s);
            AfterSearch(st.(out := p + st.out), line, name, s) == r.(out := p + r.out)
  {
    assert (p + st.out) + line + "\n" == p + (st.out + line + "\n");
    assert (p + st.out) + "// " + line + "\n" + s.content + "// End " + line + "\n" ==
           p + (st.out + "// " + line + "\n" + s.content + "// End " + line + "\n");
    assert (p + st.out) + "// " + line + " (omitted because it has been expended)\n" ==
           p + (st.out + "// " + line + " (omitted because it has been expended)\n");
  }

  /** One line read with `p` in front of the text. */
  lemma ExpandLineShift(env: Env, sp: seq<Path>, line: string, st: Scan, p: string, fuel: nat)
    requires st.status.Ok?
    ensures var r := ExpandLine(env, sp, line, st, fuel);
            ExpandLine(env, sp, line, st.(out := p + st.out), fuel) == r.(out := p + r.out)
  {
    if !IsInclude(line) {
      assert (p + st.out) + line + "\n" == p + (st.out + line + "\n");
    } else {
      var s := Resolve(env, IncludeName(line), sp, Search(Ok, InitialTemp(line), false, "", st.node, st.ledger, st.expansions), fuel);
      AfterSearchShift(st, line, IncludeName(line), s, p);
    }
  }

  /** The read loop with `p` in front of the text. */
  lemma {:induction false} ScanLinesShift(env: Env, sp: seq<Path>, lines: seq<string>, st: Scan, p: string, fuel: nat)
    ensures var r := ScanLines(env, sp, lines, st, fuel);
            ScanLines(env, sp, lines, st.(out := p + st.out), fuel) == r.(out := p + r.out)
    decreases |lines|
  {
    if lines != [] && st.status.Ok? {
      ExpandLineShift(env, sp, lines[0], st, p, fuel);
      ScanLinesShift(env, sp, lines[1..], ExpandLine(env, sp, lines[0], st, fuel), p, fuel);
    }
  }

  /** The read loop is a function of the state without its text, the text
      being prefixed to what that loop emits. */
  lemma ScanLinesFrame(env: Env, sp: seq<Path>, lines: seq<string>, st: Scan, fuel: nat)
    ensures var r := ScanLines(env, sp, lines, st.(out := ""), fuel);
            ScanLines(env, sp, lines, st, fuel) == r.(out := st.out + r.out)
  {
    ScanLinesShift(env, sp, lines, st.(out := ""), st.out, fuel);
    assert st.(out := "").(out := st.out + "") == st;
  }

  /** One call `parse_include(config, file, out)` emits the same text
      whatever `out` already holds, after it. */
  lemma ExpandFileFrame(env: Env, file: FileNode, out: string, ledger: set<Path>, fuel: nat)
    requires env.includeAll || file.name !in ledger
    ensures var r := ExpandFile(env, file, "", ledger, fuel);
            ExpandFile(env, file, out, ledger, fuel) == r.(out := out + r.out)
  {
    if CanOpen(env.fs, file.name) {
      var st := Scan(Ok, "", file, ledger + {file.name}, 1);
      ScanLinesShift(env, SearchPaths(env, file), Split(env.fs.contents[file.name]), st, out, fuel);
      assert st.(out := out + st.out) == Scan(Ok, out, file, ledger + {file.name}, 1);
    } else {
      assert out + "" == out;
    }
  }

  /** ExpandFileFrame with `p + o` for the text. */
  lemma ExpandFileShift(env: Env, file: FileNode, o: string, p: string, ledger: set<Path>, fuel: nat)
    requires env.includeAll || file.name !in ledger
    ensures var r := ExpandFile(env, file, o, ledger, fuel);
            ExpandFile(env, file, p + o, ledger, fuel) == r.(out := p + r.out)
  {
    var r0 := ExpandFile(env, file, "", ledger, fuel);
    ExpandFileFrame(env, file, o, ledger, fuel);
    ExpandFileFrame(env, file, p + o, ledger, fuel);
    assert (p + o) + r0.out == p + (o + r0.out);
  }

  /** The search loop with `p` in front of the content. */
  lemma {:induction false} ResolveShift(env: Env, name: string, ps: seq<Path>, s: Search, p: string, fuel: nat)
    ensures var r := Resolve(env, name, ps, s, fuel);
            Resolve(env, name, ps, s.(content := p + s.content), fuel) == r.(content := p + r.content)
    decreases |ps|, 2
  {
    if ps != [] && s.status.Ok? {
      if !env.fs.isRegularFile(env.fs.join(ps[0], name)) {
        ResolveShift(env, name, ps[1..], s, p, fuel);
      } else {
        ResolveHitShift(env, name, ps, s, p, fuel);
      }
    }
  }

  lemma {:induction false} ResolveHitShift(env: Env, name: string, ps: seq<Path>, s: Search, p: string, fuel: nat)
    requires ps != [] && s.status.Ok?
    ensures var r := ResolveHit(env, name, ps, s, fuel);
            ResolveHit(env, name, ps, s.(content := p + s.content), fuel) == r.(content := p + r.content)
    decreases |ps|, 1
  {
    var temp := s.temp.(name := env.fs.canonical(env.fs.join(ps[0], name)));
    if !env.includeAll && temp.name in s.ledger {
      var temp' := temp.(state := AlreadyIncluded);
      ResolveShift(env, name, ps[1..], s.(temp := temp', found := true, node := PushChild(s.node, temp')), p, fuel);
    } else if !(env.includeAll && fuel == 0) {
      ExpandHitShift(env, name, ps, s, temp.(state := Expended), p, fuel);
    }
  }

  lemma {:induction false} ExpandHitShift(env: Env, name: string, ps: seq<Path>, s: Search, temp: FileNode, p: string, fuel: nat)
    requires ps != [] && s.status.Ok?
    requires env.includeAll ==> fuel > 0
    requires env.includeAll || temp.name !in s.ledger
    requires temp.isAngle == s.temp.isAngle
    ensures var r := ExpandHit(env, name, ps, s, temp, fuel);
            ExpandHit(env, name, ps, s.(content := p + s.content), temp, fuel) == r.(content := p + r.content)
    decreases |ps|, 0
  {
    var fuel' := if env.includeAll then fuel - 1 else fuel;
    var f := ExpandFile(env, temp, s.content, s.ledger, fuel');
    ExpandFileShift(env, temp, s.content, p, s.ledger, fuel');
    var s1 := s.(temp := f.node, found := true, content := f.out, ledger := f.ledger,
                 expansions := s.expansions + f.expansions);
    var t := s.(content := p + s.content);
    var g := ExpandFile(env, temp, t.content, t.ledger, fuel');
    assert g == f.(out := p + f.out);
    var t1 := t.(temp := g.node, found := true, content := g.out, ledger := g.ledger,
                 expansions := t.expansions + g.expansions);
    assert t1 == s1.(content := p + s1.content);
    if f.status.Ok? {
      ResolveShift(env, name, ps[1..], s1.(node := PushChild(s.node, f.node)), p, fuel);
    }
  }

  /** The search loop is a function of the state without its content, the
      content being prefixed to what the loop expands. */
  lemma ResolveFrame(env: Env, name: string, ps: seq<Path>, s: Search, fuel: nat)
    ensures var r := Resolve(env, name, ps, s.(content := ""), fuel);
            Resolve(env, name, ps, s, fuel) == r.(content := s.content + r.content)
  {
    ResolveShift(env, name, ps, s.(content := ""), s.content, fuel);
    assert s.(content := "").(content := s.content + "") == s;
  }
}
