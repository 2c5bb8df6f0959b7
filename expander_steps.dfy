/** One iteration of each loop of the expander, unfolded: what the
    imperative code does in one step, stated on the functions of module
    Expander. */
module ExpanderSteps {
  import opened Text
  import opened Platform
  import opened Tree
  import opened Expander

  /** The read loop on a line followed by the rest. */
  lemma ScanStep(env: Env, sp: seq<Path>, line: string, rest: seq<string>, st: Scan, fuel: nat)
    requires st.status.Ok?
    ensures ScanLines(env, sp, [line] + rest, st, fuel) == ScanLines(env, sp, rest, ExpandLine(env, sp, line, st, fuel), fuel)
  {
    assert ([line] + rest)[0] == line;
    assert ([line] + rest)[1..] == rest;
  }

  /** The read loop stops at a state that is not Ok. */
  lemma ScanStops(env: Env, sp: seq<Path>, lines: seq<string>, st: Scan, fuel: nat)
    requires !st.status.Ok?
    ensures ScanLines(env, sp, lines, st, fuel) == st
  {
  }

  /** A directory whose joined path is not a regular file is skipped. */
  lemma SearchSkip(env: Env, name: string, ps: seq<Path>, s: Search, fuel: nat)
    requires ps != [] && s.status.Ok? && !env.fs.isRegularFile(env.fs.join(ps[0], name))
    ensures Resolve(env, name, ps, s, fuel) == Resolve(env, name, ps[1..], s, fuel)
  {
  }

  /** A hit already in the ledger (include_all off) is pushed as
      AlreadyIncluded. */
  lemma SearchAlready(env: Env, name: string, ps: seq<Path>, s: Search, fuel: nat)
    requires ps != [] && s.status.Ok? && env.fs.isRegularFile(env.fs.join(ps[0], name))
    requires !env.includeAll && env.fs.canonical(env.fs.join(ps[0], name)) in s.ledger
    ensures var t := s.temp.(name := env.fs.canonical(env.fs.join(ps[0], name)), state := AlreadyIncluded);
            Resolve(env, name, ps, s, fuel) == Resolve(env, name, ps[1..], s.(temp := t, found := true, node := PushChild(s.node, t)), fuel)
  {
    var t := s.temp.(name := env.fs.canonical(env.fs.join(ps[0], name)));
    assert t.(state := AlreadyIncluded) == s.temp.(name := t.name, state := AlreadyIncluded);
  }

  /** A hit that would be expanded under include_all with no fuel left. */
  lemma SearchOutOfFuel(env: Env, name: string, ps: seq<Path>, s: Search, fuel: nat)
    requires ps != [] && s.status.Ok? && env.fs.isRegularFile(env.fs.join(ps[0], name))
    requires env.includeAll && fuel == 0
    ensures Resolve(env, name, ps, s, fuel) ==
            s.(status := OutOfFuel, temp := s.temp.(name := env.fs.canonical(env.fs.join(ps[0], name)), state := Expended), found := true)
  {
    var t := s.temp.(name := env.fs.canonical(env.fs.join(ps[0], name)));
    assert t.(state := Expended) == s.temp.(name := t.name, state := Expended);
  }

  /** A hit that is expanded. */
  lemma SearchExpand(env: Env, name: string, ps: seq<Path>, s: Search, fuel: nat)
    requires ps != [] && s.status.Ok? && env.fs.isRegularFile(env.fs.join(ps[0], name))
    requires env.includeAll || env.fs.canonical(env.fs.join(ps[0], name)) !in s.ledger
    requires env.includeAll ==> fuel > 0
    ensures Resolve(env, name, ps, s, fuel) ==
            ExpandHit(env, name, ps, s, s.temp.(name := env.fs.canonical(env.fs.join(ps[0], name)), state := Expended), fuel)
  {
    var t := s.temp.(name := env.fs.canonical(env.fs.join(ps[0], name)));
    assert t.(state := Expended) == s.temp.(name := t.name, state := Expended);
  }

  /** The expansion of a hit succeeded: the node is pushed and the loop goes on. */
  lemma HitExpanded(env: Env, name: string, ps: seq<Path>, s: Search, temp: FileNode, fuel: nat, nested: nat)
    requires ps != [] && s.status.Ok?
    requires env.includeAll ==> fuel > 0
    requires env.includeAll || temp.name !in s.ledger
    requires temp.isAngle == s.temp.isAngle
    requires nested == if env.includeAll then fuel - 1 else fuel
    requires ExpandFile(env, temp, s.content, s.ledger, nested).status.Ok?
    ensures var f := ExpandFile(env, temp, s.content, s.ledger, nested);
            ExpandHit(env, name, ps, s, temp, fuel) ==
            Resolve(env, name, ps[1..], s.(temp := f.node, found := true, content := f.out, ledger := f.ledger,
                                           expansions := s.expansions + f.expansions, node := PushChild(s.node, f.node)), fuel)
  {
  }

  /** The expansion of a hit failed: its error ends the loop. */
  lemma HitFailed(env: Env, name: string, ps: seq<Path>, s: Search, temp: FileNode, fuel: nat, nested: nat)
    requires ps != [] && s.status.Ok?
    requires env.includeAll ==> fuel > 0
    requires env.includeAll || temp.name !in s.ledger
    requires temp.isAngle == s.temp.isAngle
    requires nested == if env.includeAll then fuel - 1 else fuel
    requires !ExpandFile(env, temp, s.content, s.ledger, nested).status.Ok?
    ensures var f := ExpandFile(env, temp, s.content, s.ledger, nested);
            ExpandHit(env, name, ps, s, temp, fuel) ==
            s.(status := f.status, temp := f.node, found := true, content := f.out, ledger := f.ledger,
               expansions := s.expansions + f.expansions)
  {
  }
}
