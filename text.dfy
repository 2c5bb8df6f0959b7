/** Characters and lines: the ASCII whitespace class used by `\s` and
    `isspace`, and the pieces that `while (!fin.eof()) getline(fin, line)`
    reads from a file's content. */
module Text {

  /** `\s` in the directive regexes and `isspace` in the name scan: space,
      tab, newline, vertical tab, form feed and carriage return. */
  predicate IsSpace(c: char) {
    c == ' ' || c == '\t' || c == '\n' || c == '\U{000B}' || c == '\U{000C}' || c == '\r'
  }

  /** Concatenation groups either way. */
  lemma Regroup<T>(a: seq<T>, b: seq<T>, c: seq<T>)
    ensures (a + b) + c == a + (b + c)
  {
  }

  /** Index of the first '\n' at or after `i`, or `|s|` when there is none. */
  function LineEnd(s: string, i: nat): (k: nat)
    requires i <= |s|
    ensures i <= k <= |s|
    ensures k < |s| ==> s[k] == '\n'
    ensures forall j :: i <= j < k ==> s[j] != '\n'
    decreases |s| - i
  {
    if i == |s| || s[i] == '\n' then i else LineEnd(s, i + 1)
  }

  /** The '\n'-separated pieces of `s`, including a final empty piece after
      a trailing newline (and the single piece "" of an empty file). */
  function Split(s: string): (pieces: seq<string>)
    ensures |pieces| >= 1
    ensures forall p :: p in pieces ==> '\n' !in p
    decreases |s|
  {
    var k := LineEnd(s, 0);
    if k == |s| then [s] else [s[..k]] + Split(s[k + 1..])
  }

  /** The pieces joined with '\n' between them: the inverse of Split. */
  function JoinLines(pieces: seq<string>): string
    requires |pieces| >= 1
  {
    if |pieces| == 1 then pieces[0] else pieces[0] + "\n" + JoinLines(pieces[1..])
  }

  /** Every line followed by '\n', as the expander writes plain lines. */
  function Terminated(lines: seq<string>): string {
    if lines == [] then "" else lines[0] + "\n" + Terminated(lines[1..])
  }

  /** One `getline` on the unread rest of a stream: the line, what is left,
      and whether the end of the stream was hit (no '\n' ended the line). */
  function GetLine(rest: string): (r: (string, string, bool))
    ensures Split(rest) == [r.0] + (if r.2 then [] else Split(r.1))
    ensures r.2 ==> r.1 == ""
    ensures !r.2 ==> |r.1| < |rest|
  {
    var k := LineEnd(rest, 0);
    if k == |rest| then (rest, "", true) else (rest[..k], rest[k + 1..], false)
  }

  /** Joining the pieces gives back the content: no character is lost. */
  lemma {:induction false} JoinSplit(s: string)
    ensures JoinLines(Split(s)) == s
    decreases |s|
  {
    var k := LineEnd(s, 0);
    if k < |s| {
      JoinSplit(s[k + 1..]);
      assert s == s[..k] + "\n" + s[k + 1..];
    }
  }

  /** Splitting newline-free pieces joined by '\n' gives the pieces back. */
  lemma {:induction false} SplitJoin(pieces: seq<string>)
    requires |pieces| >= 1
    requires forall i :: 0 <= i < |pieces| ==> '\n' !in pieces[i]
    ensures Split(JoinLines(pieces)) == pieces
    decreases |pieces|
  {
    var p := pieces[0];
    if |pieces| == 1 {
      NoNewlineLineEnd(p);
    } else {
      var s := JoinLines(pieces);
      var tail := JoinLines(pieces[1..]);
      assert s == p + ("\n" + tail);
      LineEndAfterPrefix(p, "\n" + tail);
      assert LineEnd(s, 0) == |p|;
      assert s[..|p|] == p;
      assert s[|p| + 1..] == tail;
      SplitJoin(pieces[1..]);
      assert Split(s) == [p] + Split(tail);
      assert pieces == [p] + pieces[1..];
    }
  }

  lemma NoNewlineLineEnd(p: string)
    requires '\n' !in p
    ensures LineEnd(p, 0) == |p|
  {
  }

  lemma LineEndAfterPrefix(p: string, t: string)
    requires '\n' !in p
    requires |t| > 0 && t[0] == '\n'
    ensures LineEnd(p + t, 0) == |p|
  {
    var s := p + t;
    assert s[|p|] == '\n';
    assert forall j :: 0 <= j < |p| ==> s[j] == p[j] && p[j] in p;
  }

  /** Writing each piece with its newline yields the content plus one '\n':
      the final piece, empty after a trailing newline, adds an empty line. */
  lemma {:induction false} TerminatedSplit(s: string)
    ensures Terminated(Split(s)) == s + "\n"
  {
    TerminatedJoin(Split(s));
    JoinSplit(s);
  }

  lemma {:induction false} TerminatedJoin(pieces: seq<string>)
    requires |pieces| >= 1
    ensures Terminated(pieces) == JoinLines(pieces) + "\n"
    decreases |pieces|
  {
    if |pieces| > 1 {
      TerminatedJoin(pieces[1..]);
    }
  }
}
