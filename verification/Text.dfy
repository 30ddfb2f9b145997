/** Lines and key=value cuts. A char stands for a byte. */
module Text {
  import opened Prelude

  /** The pieces between newlines: always at least one, the last possibly empty. */
  function Lines(b: string): (ls: seq<string>)
    ensures |ls| >= 1
  {
    if b == "" then [""] else AddChar(Lines(b[..|b| - 1]), b[|b| - 1])
  }

  /** One more character: a new line, or a longer last line. */
  function AddChar(ls: seq<string>, c: char): (more: seq<string>)
    requires |ls| >= 1
    ensures |more| >= 1
  {
    if c == '\n' then ls + [""] else ls[..|ls| - 1] + [ls[|ls| - 1] + [c]]
  }

  lemma LinesSnoc(b: string, c: char)
    ensures Lines(b + [c]) == AddChar(Lines(b), c)
  {
    assert (b + [c])[..|b|] == b;
  }

  lemma AddCharBehind(a: seq<string>, ls: seq<string>, c: char)
    requires |ls| >= 1
    ensures AddChar(a + ls, c) == a + AddChar(ls, c)
  {
    assert (a + ls)[..|a + ls| - 1] == a + ls[..|ls| - 1];
    assert (a + ls)[|a + ls| - 1] == ls[|ls| - 1];
  }

  lemma JoinSnoc(ls: seq<string>, line: string)
    requires |ls| >= 1
    ensures Join(ls + [line]) == Above(Join(ls), line)
  {
    assert (ls + [line])[..|ls|] == ls;
  }

  lemma AboveSnoc(a: string, line: string, c: char)
    ensures Above(a, line + [c]) == Above(a, line) + [c]
  {
    assert a + "\n" + (line + [c]) == a + "\n" + line + [c];
  }

  lemma AddCharTo(init: seq<string>, line: string, c: char)
    ensures AddChar(init + [line], c) == if c == '\n' then init + [line] + [""] else init + [line + [c]]
  {
    assert (init + [line])[..|init|] == init;
  }

  lemma JoinNewLine(ls: seq<string>)
    requires |ls| >= 1
    ensures Join(ls + [""]) == Join(ls) + "\n"
  {
    JoinSnoc(ls, "");
  }

  lemma JoinLonger(init: seq<string>, line: string, c: char)
    ensures Join(init + [line + [c]]) == Join(init + [line]) + [c]
  {
    if init == [] {
      assert init + [line] == [line] && init + [line + [c]] == [line + [c]];
    } else {
      JoinSnoc(init, line);
      JoinSnoc(init, line + [c]);
      AboveSnoc(Join(init), line, c);
    }
  }

  /** One more character in the text is one more in its lines. */
  lemma JoinAddChar(init: seq<string>, line: string, c: char)
    ensures Join(AddChar(init + [line], c)) == Join(init + [line]) + [c]
  {
    AddCharTo(init, line, c);
    if c == '\n' {
      JoinNewLine(init + [line]);
    } else {
      JoinLonger(init, line, c);
    }
  }

  function Join(ls: seq<string>): string
    requires |ls| >= 1
  {
    if |ls| == 1 then ls[0] else Above(Join(ls[..|ls| - 1]), ls[|ls| - 1])
  }

  predicate OneLine(s: string) { '\n' !in s }

  lemma {:induction false} LinesAreOneLine(b: string)
    ensures forall l :: l in Lines(b) ==> '\n' !in l
  {
    if b == "" {
    } else {
      LinesAreOneLine(b[..|b| - 1]);
      var ls := Lines(b[..|b| - 1]);
      assert ls[|ls| - 1] in ls;
    }
  }

  /** Joining the lines gives the text back. */
  lemma {:induction false} JoinLines(b: string)
    ensures Join(Lines(b)) == b
  {
    if b == "" {
    } else {
      var init, c := b[..|b| - 1], b[|b| - 1];
      JoinLines(init);
      var ls := Lines(init);
      assert ls == ls[..|ls| - 1] + [ls[|ls| - 1]];
      JoinAddChar(ls[..|ls| - 1], ls[|ls| - 1], c);
      assert b == init + [c];
    }
  }

  lemma {:induction false} LinesOfOne(s: string)
    requires OneLine(s)
    ensures Lines(s) == [s]
  {
    if s == "" {
    } else {
      assert s[|s| - 1] in s;
      LinesOfOne(s[..|s| - 1]);
      assert s == s[..|s| - 1] + [s[|s| - 1]];
    }
  }

  function Above(a: string, c: string): string { a + "\n" + c }

  lemma {:induction false} LinesConcat(a: string, c: string)
    ensures Lines(Above(a, c)) == Lines(a) + Lines(c)
  {
    if c == "" {
      LinesSnoc(a, '\n');
      assert Above(a, c) == a + ['\n'];
    } else {
      var init, x := c[..|c| - 1], c[|c| - 1];
      LinesConcat(a, init);
      assert Above(a, c) == Above(a, init) + [x];
      LinesSnoc(Above(a, init), x);
      AddCharBehind(Lines(a), Lines(init), x);
    }
  }

  /** Splitting undoes joining: together with JoinLines, the only split into lines there is. */
  lemma {:induction false} LinesJoin(ls: seq<string>)
    requires |ls| >= 1 && forall l :: l in ls ==> OneLine(l)
    ensures Lines(Join(ls)) == ls
  {
    var init, last := ls[..|ls| - 1], ls[|ls| - 1];
    assert ls == init + [last] && last in ls;
    LinesOfOne(last);
    if |ls| > 1 {
      LinesJoin(init);
      LinesConcat(Join(init), last);
    }
  }

  /** Where `c` first occurs in `s` at or after `from`; the length when it does not. */
  function IndexFrom(s: string, c: char, from: nat): (j: nat)
    requires from <= |s|
    ensures from <= j <= |s|
    decreases |s| - from
  {
    if from == |s| || s[from] == c then from else IndexFrom(s, c, from + 1)
  }

  lemma {:induction false} IndexFromFirst(s: string, c: char, from: nat)
    requires from <= |s|
    ensures var j := IndexFrom(s, c, from);
      (j < |s| ==> s[j] == c) && forall i :: from <= i < j ==> s[i] != c
    decreases |s| - from
  {
    if from < |s| && s[from] != c {
      IndexFromFirst(s, c, from + 1);
    }
  }

  lemma IndexIs(s: string, c: char, j: nat)
    requires j < |s| && s[j] == c && forall i :: 0 <= i < j ==> s[i] != c
    ensures IndexFrom(s, c, 0) == j
  {
    IndexFromFirst(s, c, 0);
  }

  /** key=value, cut at the first '='. */
  function Cut(line: string): Option<(string, string)> {
    var j := IndexFrom(line, '=', 0);
    if j < |line| then Some((line[..j], line[j + 1..])) else None
  }

  lemma CutPrinted(k: string, v: string)
    requires '=' !in k
    ensures Cut(k + "=" + v) == Some((k, v))
  {
    var line := k + "=" + v;
    assert forall i :: 0 <= i < |k| ==> line[i] == k[i];
    IndexIs(line, '=', |k|);
    assert line[..|k|] == k && line[|k| + 1..] == v;
  }

  /** A key that was cut off a line holds no '=', and neither part a newline. */
  lemma CutParts(line: string)
    requires OneLine(line) && Cut(line).Some?
    ensures var (k, v) := Cut(line).value; '=' !in k && OneLine(k) && OneLine(v)
  {
    IndexFromFirst(line, '=', 0);
  }
}
