/** Recognising an include directive and extracting the file name from it.

    The two regular expressions of the tool,
      regex_include:         ^\s*#\s*include\s*(<.*>|".*")\s*$
      regex_system_include:  ^\s*#\s*include\s*<.*>\s*$
    are written out as predicates. `\s` is the ASCII whitespace class and
    `.` (ECMAScript syntax) is any character but '\n' and '\r'. Because '#',
    the letters of "include" and the delimiters are not whitespace, each
    `\s*` before the delimiter matches exactly the run of whitespace there;
    and because the closing delimiter is not whitespace, the trailing `\s*`
    matches exactly the trailing run of whitespace. So the delimited part is
    the rest of the line after "include" and its whitespace, with trailing
    whitespace removed: the greedy `.*` reaches the last delimiter. */
module Directive {
  import opened Text

  /** `.` of an ECMAScript regular expression. */
  predicate IsDot(c: char) {
    c != '\n' && c != '\r'
  }

  /** A character the name scan stops at: '>', '"' or whitespace. */
  predicate IsStop(c: char) {
    c == '>' || c == '"' || IsSpace(c)
  }

  /** A character the first scan looks for: '<' or '"'. */
  predicate IsOpening(c: char) {
    c == '<' || c == '"'
  }

  /** The first index at or after `i` that is not whitespace, or `|s|`. */
  function SkipSpaces(s: string, i: nat): (k: nat)
    requires i <= |s|
    ensures i <= k <= |s|
    ensures forall j :: i <= j < k ==> IsSpace(s[j])
    ensures k < |s| ==> !IsSpace(s[k])
    decreases |s| - i
  {
    if i == |s| || !IsSpace(s[i]) then i else SkipSpaces(s, i + 1)
  }

  /** The first index at or after `i` holding '<' or '"', or `|s|`. */
  function FirstOpening(s: string, i: nat): (k: nat)
    requires i <= |s|
    ensures i <= k <= |s|
    ensures forall j :: i <= j < k ==> !IsOpening(s[j])
    ensures k < |s| ==> IsOpening(s[k])
    decreases |s| - i
  {
    if i == |s| || IsOpening(s[i]) then i else FirstOpening(s, i + 1)
  }

  /** The first index at or after `i` holding a stop character, or `|s|`. */
  function NameEnd(s: string, i: nat): (k: nat)
    requires i <= |s|
    ensures i <= k <= |s|
    ensures forall j :: i <= j < k ==> !IsStop(s[j])
    ensures k < |s| ==> IsStop(s[k])
    decreases |s| - i
  {
    if i == |s| || IsStop(s[i]) then i else NameEnd(s, i + 1)
  }

  /** `s` without its trailing run of whitespace. */
  function TrimEnd(s: string): (t: string)
    ensures t <= s
    ensures forall j :: |t| <= j < |s| ==> IsSpace(s[j])
    ensures t == [] || !IsSpace(t[|t| - 1])
  {
    if s != [] && IsSpace(s[|s| - 1]) then TrimEnd(s[..|s| - 1]) else s
  }

  /** `\s*#\s*include` at the start of the line. */
  predicate HasDirectivePrefix(line: string) {
    var a := SkipSpaces(line, 0);
    a < |line| && line[a] == '#' &&
    var b := SkipSpaces(line, a + 1);
    b + 7 <= |line| && line[b..b + 7] == "include"
  }

  /** Where the text after "include" and its whitespace begins. */
  function TailStart(line: string): (k: nat)
    requires HasDirectivePrefix(line)
    ensures k <= |line|
  {
    var a := SkipSpaces(line, 0);
    var b := SkipSpaces(line, a + 1);
    SkipSpaces(line, b + 7)
  }

  /** The part that must be `<.*>` or `".*"`: the rest of the line after
      "include" and its whitespace, without trailing whitespace. */
  function Delimited(line: string): string
    requires HasDirectivePrefix(line)
  {
    TrimEnd(line[TailStart(line)..])
  }

  /** `t` is `open`, then characters matched by `.`, then `close`. */
  predicate Enclosed(t: string, open: char, close: char) {
    |t| >= 2 && t[0] == open && t[|t| - 1] == close &&
    forall j :: 0 < j < |t| - 1 ==> IsDot(t[j])
  }

  /** `regex_match(line, regex_include)`. The text after "include" and its
      whitespace then starts with '<' or '"' and holds both delimiters. */
  predicate IsInclude(line: string)
    ensures IsInclude(line) ==>
              HasDirectivePrefix(line) && TailStart(line) + 2 <= |line| && IsOpening(line[TailStart(line)])
  {
    HasDirectivePrefix(line) &&
    (Enclosed(Delimited(line), '<', '>') || Enclosed(Delimited(line), '"', '"'))
  }

  /** `regex_match(line, regex_system_include)`: every line it matches also
      matches regex_include. */
  predicate IsSystemInclude(line: string)
    ensures IsSystemInclude(line) ==> IsInclude(line)
  {
    HasDirectivePrefix(line) && Enclosed(Delimited(line), '<', '>')
  }

  /** The text between the delimiters of a directive. */
  function Body(line: string): string
    requires IsInclude(line)
  {
    var t := Delimited(line);
    t[1..|t| - 1]
  }

  /** Where the name begins: past the first '<' or '"', past whitespace. */
  function NameStart(line: string): (k: nat)
    ensures k <= |line|
  {
    var d := FirstOpening(line, 0);
    if d == |line| then |line| else SkipSpaces(line, d + 1)
  }

  /** The name the scan of the tool extracts from a line: it holds no '>',
      '"' or whitespace, and when the scan stopped before the end of the
      line, one of those follows it. */
  function IncludeName(line: string): (name: string)
    ensures forall j :: 0 <= j < |name| ==> !IsStop(name[j])
    ensures NameStart(line) + |name| < |line| ==> IsStop(line[NameStart(line) + |name|])
  {
    var i := NameStart(line);
    line[i..NameEnd(line, i)]
  }

  /** A string's first token: leading whitespace skipped, then everything up
      to the first '>', '"' or whitespace. */
  function Token(s: string): string {
    var i := SkipSpaces(s, 0);
    s[i..NameEnd(s, i)]
  }

  /** The index of the closing delimiter of a directive. */
  function CloseIndex(line: string): (k: nat)
    requires IsInclude(line)
    ensures TailStart(line) < k < |line|
    ensures line[k] == Delimited(line)[|Delimited(line)| - 1]
  {
    var ts := TailStart(line);
    var t := Delimited(line);
    assert t <= line[ts..];
    assert line[ts + |t| - 1] == line[ts..][|t| - 1];
    ts + |t| - 1
  }

  /** The scan of the tool: skip to the first '<' or '"', step past it,
      skip whitespace, then take characters up to the first '>', '"' or
      whitespace. It runs on lines that match regex_include, which is what
      keeps both iterators inside the line. */
  method ExtractIncludeName(line: string) returns (name: string)
    requires IsInclude(line)
    ensures name == IncludeName(line)
    ensures forall j :: 0 <= j < |name| ==> !IsStop(name[j])
  {
    ScanStaysInLine(line);
    var d := FirstOpening(line, 0);
    var it1 := 0;
    while line[it1] != '<' && line[it1] != '"'
      invariant it1 <= d
      decreases d - it1
    {
      it1 := it1 + 1;
    }
    assert it1 == d;
    it1 := it1 + 1;
    while IsSpace(line[it1])
      invariant d + 1 <= it1 <= NameStart(line) == SkipSpaces(line, d + 1)
      decreases NameStart(line) - it1
    {
      it1 := it1 + 1;
    }
    var it2 := it1;
    while line[it2] != '>' && line[it2] != '"' && !IsSpace(line[it2])
      invariant it1 <= it2 <= NameEnd(line, it1)
      decreases NameEnd(line, it1) - it2
    {
      it2 := it2 + 1;
    }
    assert it1 == NameStart(line) && it2 == NameEnd(line, it1);
    name := line[it1..it2];
  }

  /** Nothing before the tail of a directive is '<' or '"': it is
      whitespace, '#', whitespace, "include" and whitespace. */
  lemma NoOpeningBeforeTail(line: string)
    requires HasDirectivePrefix(line)
    ensures forall j :: 0 <= j < TailStart(line) ==> !IsOpening(line[j])
  {
    var a := SkipSpaces(line, 0);
    var b := SkipSpaces(line, a + 1);
    var ts := TailStart(line);
    forall j | 0 <= j < ts
      ensures !IsOpening(line[j])
    {
      if b <= j < b + 7 {
        assert line[j] == line[b..b + 7][j - b];
      }
    }
  }

  /** On a directive, the first '<' or '"' is the opening delimiter, and the
      name scan ends at the latest on the closing delimiter. */
  lemma ScanStaysInLine(line: string)
    requires IsInclude(line)
    ensures FirstOpening(line, 0) == TailStart(line)
    ensures FirstOpening(line, 0) < NameStart(line) <= CloseIndex(line)
    ensures NameEnd(line, NameStart(line)) <= CloseIndex(line)
  {
    var ts := TailStart(line);
    var t := Delimited(line);
    var c := CloseIndex(line);
    assert t <= line[ts..];
    assert line[ts] == t[0];
    NoOpeningBeforeTail(line);
    var d := FirstOpening(line, 0);
    assert d == ts;
    assert !IsSpace(line[c]) && IsStop(line[c]);
  }

  /** is_angle: a directive is a system include exactly when the text after
      "include" and its whitespace begins with '<'. */
  lemma AngleIffLessThan(line: string)
    requires IsInclude(line)
    ensures IsSystemInclude(line) <==> line[TailStart(line)] == '<'
  {
    var ts := TailStart(line);
    var t := Delimited(line);
    assert t <= line[ts..];
    assert line[ts] == t[0];
  }

  /** The name of a directive is the first token of the text between its
      delimiters: leading whitespace after the opening delimiter is skipped
      and the name ends at the first '>', '"' or whitespace inside. */
  lemma NameIsFirstTokenOfBody(line: string)
    requires IsInclude(line)
    ensures IncludeName(line) == Token(Body(line))
  {
    ScanStaysInLine(line);
    BodyIsWindow(line);
    var o := TailStart(line) + 1;
    assert NameStart(line) == SkipSpaces(line, o);
    TokenOfWindow(line, Body(line), o);
  }

  /** The token found from `o` in `s` is the token of the window `w` of `s`
      starting at `o`, when a non-whitespace stop character follows `w`. */
  lemma TokenOfWindow(s: string, w: string, o: nat)
    requires o + |w| < |s|
    requires forall j :: 0 <= j < |w| ==> w[j] == s[o + j]
    requires IsStop(s[o + |w|]) && !IsSpace(s[o + |w|])
    ensures var i := SkipSpaces(s, o); s[i..NameEnd(s, i)] == Token(w)
  {
    SkipSpacesShift(s, w, o, 0);
    var i := SkipSpaces(w, 0);
    NameEndShift(s, w, o, i);
    var e := NameEnd(w, i);
    assert |w[i..e]| == |s[o + i..o + e]|;
    forall j | 0 <= j < e - i
      ensures w[i..e][j] == s[o + i..o + e][j]
    {
      assert w[i + j] == s[o + i + j];
    }
  }

  /** The body of a directive is the window of the line between the
      delimiters, and a non-whitespace stop character follows it. */
  lemma BodyIsWindow(line: string)
    requires IsInclude(line)
    ensures var o := TailStart(line) + 1;
      o + |Body(line)| == CloseIndex(line) &&
      (forall j :: 0 <= j < |Body(line)| ==> Body(line)[j] == line[o + j]) &&
      IsStop(line[CloseIndex(line)]) && !IsSpace(line[CloseIndex(line)])
  {
    var ts := TailStart(line);
    var t := Delimited(line);
    assert t <= line[ts..];
    var body := Body(line);
    forall j | 0 <= j < |body|
      ensures body[j] == line[ts + 1 + j]
    {
      assert body[j] == t[j + 1];
    }
  }

  /** SkipSpaces on a window `w` of `s` that starts at `o` and is followed in
      `s` by a non-whitespace character. */
  lemma SkipSpacesShift(s: string, w: string, o: nat, i: nat)
    requires o + |w| < |s| && i <= |w|
    requires forall j :: 0 <= j < |w| ==> w[j] == s[o + j]
    requires !IsSpace(s[o + |w|])
    ensures SkipSpaces(s, o + i) == o + SkipSpaces(w, i)
  {
    var k := SkipSpaces(w, i);
    assert forall j :: o + i <= j < o + k ==> IsSpace(s[j]) by {
      forall j | o + i <= j < o + k ensures IsSpace(s[j]) {
        assert s[j] == w[j - o];
      }
    }
    assert !IsSpace(s[o + k]);
  }

  /** NameEnd on a window `w` of `s` that starts at `o` and is followed in
      `s` by a stop character. */
  lemma NameEndShift(s: string, w: string, o: nat, i: nat)
    requires o + |w| < |s| && i <= |w|
    requires forall j :: 0 <= j < |w| ==> w[j] == s[o + j]
    requires IsStop(s[o + |w|])
    ensures NameEnd(s, o + i) == o + NameEnd(w, i)
  {
    var k := NameEnd(w, i);
    assert forall j :: o + i <= j < o + k ==> !IsStop(s[j]) by {
      forall j | o + i <= j < o + k ensures !IsStop(s[j]) {
        assert s[j] == w[j - o];
      }
    }
    assert IsStop(s[o + k]);
  }

  predicate AllSpace(w: string) {
    forall j :: 0 <= j < |w| ==> IsSpace(w[j])
  }

  /** Every character of `w` is matched by `.`. */
  predicate AllDot(w: string) {
    forall j :: 0 <= j < |w| ==> IsDot(w[j])
  }

  /** The line `w1 # w2 include w3 open body close w4`. */
  function Compose(w1: string, w2: string, w3: string, open: char, body: string, close: char, w4: string): string {
    w1 + "#" + w2 + "include" + w3 + ([open] + body + [close] + w4)
  }

  /** Every line of the shape the regular expression describes is a
      directive: whitespace, '#', whitespace, "include", whitespace, a
      delimited body of `.` characters, whitespace. Its quoting decides
      whether it is a system include, its body is what lies between the
      delimiters, and its name is the body's first token. */
  lemma ComposedLineIsDirective(w1: string, w2: string, w3: string, w4: string,
                                open: char, body: string, close: char)
    requires AllSpace(w1) && AllSpace(w2) && AllSpace(w3) && AllSpace(w4)
    requires (open == '<' && close == '>') || (open == '"' && close == '"')
    requires forall j :: 0 <= j < |body| ==> IsDot(body[j])
    ensures var line := Compose(w1, w2, w3, open, body, close, w4);
      IsInclude(line) && (IsSystemInclude(line) <==> open == '<') &&
      Body(line) == body && IncludeName(line) == Token(body)
  {
    var t := [open] + body + [close];
    var line := w1 + "#" + w2 + "include" + w3 + (t + w4);
    ComposedDelimited(w1, w2, w3, w4, t);
    assert Enclosed(t, open, close) by {
      assert forall j :: 0 < j < |t| - 1 ==> t[j] == body[j - 1];
    }
    assert t[1..|t| - 1] == body;
    NameIsFirstTokenOfBody(line);
  }

  /** The converse: every directive is a line of that shape, cut at its own
      indices (`a` the '#', `b` the "include", `ts` the opening delimiter,
      `c` the closing one): the whitespace before '#', the whitespace before
      "include", the whitespace before the opening delimiter, the delimiters
      with the body of `.` characters between them, and the trailing
      whitespace. */
  lemma DirectiveIsComposed(line: string, a: nat, b: nat, ts: nat, c: nat)
    requires IsInclude(line)
    requires a == SkipSpaces(line, 0) && b == SkipSpaces(line, a + 1)
    requires ts == TailStart(line) && c == CloseIndex(line)
    ensures a < b && b + 7 <= ts < c < |line|
    ensures line == Compose(line[..a], line[a + 1..b], line[b + 7..ts], line[ts], line[ts + 1..c], line[c], line[c + 1..])
    ensures AllSpace(line[..a]) && AllSpace(line[a + 1..b]) && AllSpace(line[b + 7..ts]) && AllSpace(line[c + 1..])
    ensures (line[ts] == '<' && line[c] == '>') || (line[ts] == '"' && line[c] == '"')
    ensures AllDot(line[ts + 1..c]) && line[ts + 1..c] == Body(line)
  {
    PrefixFacts(line, a, b, ts);
    SplitAtPrefix(line, a, b, ts, c);
    PiecesAt(line, a, b, ts, c);
  }

  /** The facts of DirectiveIsComposed about each piece. */
  lemma PiecesAt(line: string, a: nat, b: nat, ts: nat, c: nat)
    requires IsInclude(line)
    requires a == SkipSpaces(line, 0) && b == SkipSpaces(line, a + 1)
    requires ts == TailStart(line) && c == CloseIndex(line)
    ensures AllSpace(line[..a]) && AllSpace(line[a + 1..b]) && AllSpace(line[b + 7..ts]) && AllSpace(line[c + 1..])
    ensures (line[ts] == '<' && line[c] == '>') || (line[ts] == '"' && line[c] == '"')
    ensures AllDot(line[ts + 1..c]) && line[ts + 1..c] == Body(line)
  {
    PrefixSpaces(line, a, b, ts);
    DelimitedWindow(line);
    CutAtDelimiters(line, ts, c, Delimited(line));
  }

  /** The three whitespace runs of the directive prefix. */
  lemma PrefixSpaces(line: string, a: nat, b: nat, ts: nat)
    requires HasDirectivePrefix(line)
    requires a == SkipSpaces(line, 0) && b == SkipSpaces(line, a + 1) && ts == TailStart(line)
    ensures a < b && b + 7 <= ts <= |line|
    ensures AllSpace(line[..a]) && AllSpace(line[a + 1..b]) && AllSpace(line[b + 7..ts])
  {
    PrefixFacts(line, a, b, ts);
    SpaceRun(line, 0, a);
    assert line[0..a] == line[..a];
    SpaceRun(line, a + 1, b);
    SpaceRun(line, b + 7, ts);
  }

  /** The indices of the directive prefix: whitespace, '#' at `a`,
      whitespace, "include" at `b`, whitespace up to the tail. */
  lemma PrefixFacts(line: string, a: nat, b: nat, ts: nat)
    requires HasDirectivePrefix(line)
    requires a == SkipSpaces(line, 0) && b == SkipSpaces(line, a + 1) && ts == TailStart(line)
    ensures a < b && b + 7 <= ts <= |line| && line[a] == '#' && line[b..b + 7] == "include" &&
      (forall j :: 0 <= j < a ==> IsSpace(line[j])) &&
      (forall j :: a + 1 <= j < b ==> IsSpace(line[j])) &&
      (forall j :: b + 7 <= j < ts ==> IsSpace(line[j]))
  {
  }

  /** The delimited part of a directive is the window of the line from the
      tail to the closing delimiter, and only whitespace follows it. */
  lemma DelimitedWindow(line: string)
    requires IsInclude(line)
    ensures Delimited(line) == line[TailStart(line)..CloseIndex(line) + 1]
    ensures forall j :: CloseIndex(line) + 1 <= j < |line| ==> IsSpace(line[j])
  {
    var ts := TailStart(line);
    var t := Delimited(line);
    var rest := line[ts..];
    assert t <= rest;
    assert t == rest[..|t|];
    forall j | CloseIndex(line) + 1 <= j < |line|
      ensures IsSpace(line[j])
    {
      assert line[j] == rest[j - ts];
    }
  }

  /** The pieces from the opening delimiter on, for a window `t` of `line`
      that is `<.*>` or `".*"` and is followed by whitespace only. */
  lemma CutAtDelimiters(line: string, ts: nat, c: nat, t: string)
    requires ts < c < |line| && t == line[ts..c + 1]
    requires Enclosed(t, '<', '>') || Enclosed(t, '"', '"')
    requires forall j :: c + 1 <= j < |line| ==> IsSpace(line[j])
    ensures (line[ts] == '<' && line[c] == '>') || (line[ts] == '"' && line[c] == '"')
    ensures line[ts + 1..c] == t[1..|t| - 1] && AllDot(line[ts + 1..c])
    ensures AllSpace(line[c + 1..])
  {
    assert line[ts] == t[0] && line[c] == t[|t| - 1];
    assert line[ts + 1..c] == t[1..|t| - 1] by {
      forall j | ts + 1 <= j < c
        ensures line[j] == t[j - ts]
      {
      }
    }
    DotRun(t, 1, |t| - 1);
    SpaceRun(line, c + 1, |line|);
    assert line[c + 1..|line|] == line[c + 1..];
  }

  /** Characters that are all matched by `.` form an AllDot slice. */
  lemma DotRun(s: string, i: nat, k: nat)
    requires i <= k <= |s|
    requires forall j :: i <= j < k ==> IsDot(s[j])
    ensures AllDot(s[i..k])
  {
    forall j | 0 <= j < k - i
      ensures IsDot(s[i..k][j])
    {
      assert s[i..k][j] == s[i + j];
    }
  }

  /** Characters that are all whitespace form an AllSpace slice. */
  lemma SpaceRun(s: string, i: nat, k: nat)
    requires i <= k <= |s|
    requires forall j :: i <= j < k ==> IsSpace(s[j])
    ensures AllSpace(s[i..k])
  {
    forall j | 0 <= j < k - i
      ensures IsSpace(s[i..k][j])
    {
      assert s[i..k][j] == s[i + j];
    }
  }

  /** A line cut into the pieces of DirectiveIsComposed and glued back. */
  lemma SplitAtPrefix(line: string, a: nat, b: nat, ts: nat, c: nat)
    requires a < b && b + 7 <= ts < c < |line|
    requires line[a] == '#' && line[b..b + 7] == "include"
    ensures line == Compose(line[..a], line[a + 1..b], line[b + 7..ts], line[ts], line[ts + 1..c], line[c], line[c + 1..])
  {
    assert line[..a + 1] == line[..a] + "#";
    assert line[..b] == line[..a + 1] + line[a + 1..b];
    assert line[..b + 7] == line[..b] + "include";
    assert line[..ts] == line[..b + 7] + line[b + 7..ts];
    assert line[ts..] == [line[ts]] + line[ts + 1..c] + [line[c]] + line[c + 1..];
    assert line == line[..ts] + line[ts..];
  }

  /** The delimited part of a composed line is the part after "include" and
      its whitespace, with the trailing whitespace dropped. */
  lemma ComposedDelimited(w1: string, w2: string, w3: string, w4: string, t: string)
    requires AllSpace(w1) && AllSpace(w2) && AllSpace(w3) && AllSpace(w4)
    requires |t| >= 2 && !IsSpace(t[0]) && !IsSpace(t[|t| - 1])
    ensures var line := w1 + "#" + w2 + "include" + w3 + (t + w4);
      HasDirectivePrefix(line) && Delimited(line) == t
  {
    PrefixIsSkipped(w1, w2, w3, t + w4);
    TrimSpaces(t, w4);
  }

  /** `\s*#\s*include\s*` is recognised, and the tail is what follows. */
  lemma PrefixIsSkipped(w1: string, w2: string, w3: string, rest: string)
    requires AllSpace(w1) && AllSpace(w2) && AllSpace(w3)
    requires rest != [] && !IsSpace(rest[0])
    ensures var line := w1 + "#" + w2 + "include" + w3 + rest;
      HasDirectivePrefix(line) && line[TailStart(line)..] == rest
  {
    var l1 := w1 + "#";
    var l2 := l1 + w2;
    var l3 := l2 + "include";
    var l4 := l3 + w3;
    var line := l4 + rest;
    var a := |w1|;
    var b := a + 1 + |w2|;
    var ts := b + 7 + |w3|;
    assert line[a] == '#' by {
      assert line[..ts] == l4 && l4[..b + 7] == l3 && l3[..b] == l2 && l2[..a + 1] == l1;
      assert line[a] == l1[a];
    }
    assert line[b..b + 7] == "include" by {
      assert line[..ts] == l4 && l4[..b + 7] == l3 && l3[..b] == l2 && l2[..a + 1] == l1;
      assert line[b..b + 7] == l3[b..b + 7];
    }
    assert !IsSpace(line[ts]) by {
      assert line[..ts] == l4 && line[ts..] == rest;
      assert line[ts] == rest[0];
    }
    assert forall j :: 0 <= j < a ==> IsSpace(line[j]) by {
      assert line[..ts] == l4 && l4[..b + 7] == l3 && l3[..b] == l2 && l2[..a + 1] == l1;
      forall j | 0 <= j < a
        ensures IsSpace(line[j])
      {
        assert line[j] == l1[j] == w1[j];
      }
    }
    assert forall j :: a + 1 <= j < b ==> IsSpace(line[j]) by {
      assert line[..ts] == l4 && l4[..b + 7] == l3 && l3[..b] == l2 && l2[..a + 1] == l1;
      forall j | a + 1 <= j < b
        ensures IsSpace(line[j])
      {
        assert line[j] == l2[j] == w2[j - a - 1];
      }
    }
    assert forall j :: b + 7 <= j < ts ==> IsSpace(line[j]) by {
      assert line[..ts] == l4 && line[ts..] == rest;
      forall j | b + 7 <= j < ts
        ensures IsSpace(line[j])
      {
        assert line[j] == l4[j] == w3[j - b - 7];
      }
    }
    PrefixAt(line, a, b, ts);
    assert line[ts..] == rest;
  }

  /** A line that is whitespace up to `a`, '#' at `a`, whitespace up to
      `b`, "include" from `b`, and whitespace up to a non-whitespace
      character at `ts` has the directive prefix, and its tail starts at
      `ts`. */
  lemma PrefixAt(line: string, a: nat, b: nat, ts: nat)
    requires a < b && b + 7 <= ts < |line|
    requires forall j :: 0 <= j < a ==> IsSpace(line[j])
    requires line[a] == '#'
    requires forall j :: a + 1 <= j < b ==> IsSpace(line[j])
    requires line[b..b + 7] == "include"
    requires forall j :: b + 7 <= j < ts ==> IsSpace(line[j])
    requires !IsSpace(line[ts])
    ensures HasDirectivePrefix(line) && TailStart(line) == ts
  {
    SkipTo(line, 0, a);
    assert !IsSpace(line[b]) by {
      assert line[b] == line[b..b + 7][0];
    }
    SkipTo(line, a + 1, b);
    SkipTo(line, b + 7, ts);
  }

  /** SkipSpaces stops at the first non-whitespace character. */
  lemma SkipTo(s: string, i: nat, k: nat)
    requires i <= k < |s|
    requires forall j :: i <= j < k ==> IsSpace(s[j])
    requires !IsSpace(s[k])
    ensures SkipSpaces(s, i) == k
  {
  }

  /** Trailing whitespace after a string that ends in a non-space is trimmed
      exactly. */
  lemma {:induction false} TrimSpaces(t: string, w: string)
    requires AllSpace(w)
    requires t != [] && !IsSpace(t[|t| - 1])
    ensures TrimEnd(t + w) == t
    decreases |w|
  {
    if w == [] {
      assert t + w == t;
    } else {
      var w' := w[..|w| - 1];
      assert (t + w)[..|t + w| - 1] == t + w';
      TrimSpaces(t, w');
    }
  }
}
