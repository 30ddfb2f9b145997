/** One line of /proc/<pid>/stat. A char stands for a byte, white space is what it is in UTF-8.
    agent/internal/procs/procs.go, parseStatString */
module StatLine {
  import opened Prelude
  import opened Text

  // ---- Numbers -------------------------------------------------------------------------------

  const UINT64_END: nat := 0x1_0000_0000_0000_0000

  predicate IsDigit(c: char) { '0' <= c <= '9' }

  predicate Digits(s: string) { forall i :: 0 <= i < |s| ==> IsDigit(s[i]) }

  function Value(s: string): nat
    requires Digits(s)
  {
    if s == "" then 0 else 10 * Value(s[..|s| - 1]) + (s[|s| - 1] as int - '0' as int)
  }

  /** Each further digit counts one, those before it ten times as much as they did. */
  lemma ValueSnoc(s: string, c: char)
    requires Digits(s) && '0' <= c <= '9'
    ensures Value("") == 0 && Value(s + [c]) == 10 * Value(s) + (c as int - 48)
  {
    assert (s + [c])[..|s|] == s;
  }

  /** An unsigned 64-bit decimal: digits only, at least one, in range. */
  function ParseUint(s: string): Option<nat> {
    if s == "" || !Digits(s) || Value(s) >= UINT64_END then None else Some(Value(s))
  }

  function DigitOf(d: nat): (c: char)
    requires d < 10
    ensures IsDigit(c) && c as int - '0' as int == d
  {
    '0' + d as char
  }

  /** The usual decimal numeral. */
  function Dec(n: nat): string {
    if n < 10 then [DigitOf(n)] else Dec(n / 10) + [DigitOf(n % 10)]
  }

  lemma {:induction false} DecDigits(n: nat)
    ensures Digits(Dec(n)) && Dec(n) != "" && Value(Dec(n)) == n
  {
    if n >= 10 {
      DecDigits(n / 10);
      assert Dec(n)[..|Dec(n)| - 1] == Dec(n / 10);
    } else {
      assert Dec(n)[..0] == "" && Value("") == 0;
    }
  }

  /** A printed number reads back exactly when it fits in 64 bits. */
  lemma ParseDec(n: nat)
    ensures ParseUint(Dec(n)) == if n < UINT64_END then Some(n) else None
  {
    DecDigits(n);
  }

  // ---- Fields --------------------------------------------------------------------------------

  predicate AsciiSpace(c: char) { c in {' ', '\t', '\n', '\U{0B}', '\U{0C}', '\r'} }

  /** The two-byte encodings of white space: U+0085 and U+00A0. */
  predicate TwoByteSpace(a: char, b: char) { a == '\U{C2}' && b in {'\U{85}', '\U{A0}'} }

  /** The three-byte ones: U+1680, U+2000 to U+200A, U+2028, U+2029, U+202F, U+205F and U+3000. */
  predicate ThreeByteSpace(a: char, b: char, c: char) {
    || (a == '\U{E1}' && b == '\U{9A}' && c == '\U{80}')
    || (a == '\U{E2}' && b == '\U{80}' && ('\U{80}' <= c <= '\U{8A}' || c in {'\U{A8}', '\U{A9}', '\U{AF}'}))
    || (a == '\U{E2}' && b == '\U{81}' && c == '\U{9F}')
    || (a == '\U{E3}' && b == '\U{80}' && c == '\U{80}')
  }

  /** How many bytes of white space, encoded in UTF-8, the text starts with; 0 when with something else. No byte
      inside another character starts such an encoding, so going byte by byte finds what going rune by rune does. */
  function SpaceLen(s: string): (n: nat)
    ensures n <= |s|
  {
    if |s| >= 1 && AsciiSpace(s[0]) then 1
    else if |s| >= 2 && TwoByteSpace(s[0], s[1]) then 2
    else if |s| >= 3 && ThreeByteSpace(s[0], s[1], s[2]) then 3
    else 0
  }

  /** Nothing but white space. */
  predicate Blank(s: string) { s == "" || (SpaceLen(s) > 0 && Blank(s[SpaceLen(s)..])) }

  ghost predicate NoSpace(s: string) { forall i :: 0 <= i < |s| ==> SpaceLen(s[i..]) == 0 }

  ghost predicate Word(s: string) { s != "" && NoSpace(s) }

  function WordEnd(s: string, from: nat): (j: nat)
    requires from <= |s|
    ensures from <= j <= |s| && (j < |s| ==> SpaceLen(s[j..]) > 0)
    ensures forall i :: from <= i < j ==> SpaceLen(s[i..]) == 0
    decreases |s| - from
  {
    if from == |s| || SpaceLen(s[from..]) > 0 then from else WordEnd(s, from + 1)
  }

  /** The maximal runs without white space. */
  function Fields(s: string): seq<string>
    decreases |s|
  {
    if s == "" then []
    else if SpaceLen(s) > 0 then Fields(s[SpaceLen(s)..])
    else
      var j := WordEnd(s, 0);
      assert s[0..] == s;
      [s[..j]] + Fields(s[j..])
  }

  /** Each of them is a word. */
  lemma {:induction false} FieldsAreWords(s: string)
    ensures forall w :: w in Fields(s) ==> Word(w)
    decreases |s|
  {
    if s == "" {
    } else if SpaceLen(s) > 0 {
      FieldsAreWords(s[SpaceLen(s)..]);
    } else {
      var j := WordEnd(s, 0);
      assert s[0..] == s;
      FieldsAreWords(s[j..]);
      forall i | 0 <= i < j ensures SpaceLen(s[..j][i..]) == 0 {
        assert s[..j][i..] == s[i..][..j - i];
        ShorterHasNoSpace(s[i..], j - i);
      }
    }
  }

  lemma ShorterHasNoSpace(s: string, n: nat)
    requires SpaceLen(s) == 0 && n <= |s|
    ensures SpaceLen(s[..n]) == 0
  {
  }

  /** Text behind white space, or behind a word that white space follows, does not change what is seen. */
  lemma SpaceLenAppend(s: string, t: string)
    requires SpaceLen(s) > 0
    ensures SpaceLen(s + t) == SpaceLen(s)
  {
  }

  lemma NoSpaceAcross(s: string, t: string)
    requires s != "" && SpaceLen(s) == 0 && (forall i :: 0 <= i < |s| ==> SpaceLen(s[i..]) == 0)
    requires t == "" || SpaceLen(t) > 0
    ensures SpaceLen(s + t) == 0
  {
    assert |s| >= 2 ==> (s + t)[1] == s[1];
    assert |s| >= 3 ==> (s + t)[2] == s[2];
    assert |s| == 1 && |t| >= 1 ==> (s + t)[1] == t[0];
    assert |s| == 2 && |t| >= 1 ==> (s + t)[2] == t[0];
  }

  lemma {:induction false} FieldsOfBlank(s: string)
    requires Blank(s)
    ensures Fields(s) == []
    decreases |s|
  {
    if s == "" {
    } else {
      FieldsOfBlank(s[SpaceLen(s)..]);
    }
  }

  /** A word, then the end or white space: the word is the first field. */
  lemma FieldsOfWord(w: string, rest: string)
    requires Word(w) && (rest == "" || SpaceLen(rest) > 0)
    ensures Fields(w + rest) == [w] + Fields(rest)
  {
    var s := w + rest;
    assert s[0..] == s;
    forall i | 0 <= i < |w| ensures SpaceLen(s[i..]) == 0 {
      assert s[i..] == w[i..] + rest;
      assert forall k :: 0 <= k < |w[i..]| ==> w[i..][k..] == w[i + k..];
      NoSpaceAcross(w[i..], rest);
    }
    assert s[|w|..] == rest;
    var j := WordEnd(s, 0);
    assert j == |w|;
    assert s[..j] == w;
  }

  /** Each word behind its gap. */
  function Spaced(gaps: seq<string>, ws: seq<string>): string
    requires |gaps| == |ws|
  {
    if ws == [] then "" else gaps[0] + ws[0] + Spaced(gaps[1..], ws[1..])
  }

  predicate Gaps(gaps: seq<string>) {
    forall i :: 0 <= i < |gaps| ==> Blank(gaps[i]) && (i > 0 ==> gaps[i] != "")
  }

  lemma {:induction false} FieldsSkipBlank(gap: string, s: string)
    requires Blank(gap)
    ensures Fields(gap + s) == Fields(s)
    decreases |gap|
  {
    if gap == "" {
      assert gap + s == s;
    } else {
      var n := SpaceLen(gap);
      SpaceLenAppend(gap, s);
      assert (gap + s)[n..] == gap[n..] + s;
      FieldsSkipBlank(gap[n..], s);
    }
  }

  /** Splitting undoes spacing, whatever the gaps between and behind the words. */
  lemma {:induction false} FieldsOfSpaced(gaps: seq<string>, ws: seq<string>, trailer: string)
    requires |gaps| == |ws| && Gaps(gaps) && Blank(trailer)
    requires forall i :: 0 <= i < |ws| ==> Word(ws[i])
    ensures Fields(Spaced(gaps, ws) + trailer) == ws
  {
    if ws == [] {
      assert "" + trailer == trailer;
      FieldsOfBlank(trailer);
    } else {
      var rest := Spaced(gaps[1..], ws[1..]) + trailer;
      FieldsOfSpaced(gaps[1..], ws[1..], trailer);
      SpacedStartsBlank(gaps, ws, trailer);
      FirstField(gaps[0], ws[0], rest);
      SpacedApart(gaps, ws, trailer);
      assert [ws[0]] + ws[1..] == ws;
    }
  }

  lemma FirstField(gap: string, w: string, rest: string)
    requires Blank(gap) && Word(w) && (rest == "" || SpaceLen(rest) > 0)
    ensures Fields(gap + (w + rest)) == [w] + Fields(rest)
  {
    FieldsSkipBlank(gap, w + rest);
    FieldsOfWord(w, rest);
  }

  lemma SpacedApart(gaps: seq<string>, ws: seq<string>, trailer: string)
    requires |gaps| == |ws| && ws != []
    ensures Spaced(gaps, ws) + trailer == gaps[0] + (ws[0] + (Spaced(gaps[1..], ws[1..]) + trailer))
  {
    var more := Spaced(gaps[1..], ws[1..]);
    Regroup(gaps[0], ws[0], more + trailer);
    Regroup(gaps[0] + ws[0], more, trailer);
  }

  lemma SpacedStartsBlank(gaps: seq<string>, ws: seq<string>, trailer: string)
    requires |gaps| == |ws| && Gaps(gaps) && Blank(trailer) && ws != []
    ensures var rest := Spaced(gaps[1..], ws[1..]) + trailer; rest == "" || SpaceLen(rest) > 0
  {
    if |ws| == 1 {
      assert "" + trailer == trailer;
    } else {
      var behind := ws[1] + Spaced(gaps[2..], ws[2..]) + trailer;
      assert gaps[1..][1..] == gaps[2..] && ws[1..][1..] == ws[2..];
      assert Spaced(gaps[1..], ws[1..]) + trailer == gaps[1] + behind;
      SpaceLenAppend(gaps[1], behind);
    }
  }

  // ---- The line ------------------------------------------------------------------------------

  /** The last position of `c`, -1 when there is none. */
  function LastIndex(s: string, c: char): (j: int)
    ensures -1 <= j < |s| && (j >= 0 ==> s[j] == c)
    ensures forall i :: j < i < |s| ==> s[i] != c
  {
    if s == "" then -1 else if s[|s| - 1] == c then |s| - 1 else LastIndex(s[..|s| - 1], c)
  }

  /** The first position of `c`, -1 when there is none. */
  function FirstIndex(s: string, c: char): (f: int)
    ensures -1 <= f < |s| && (f >= 0 ==> s[f] == c)
    ensures forall i :: 0 <= i < (if f < 0 then |s| else f) ==> s[i] != c
  {
    IndexFromFirst(s, c, 0);
    var j := IndexFrom(s, c, 0);
    if j < |s| then j else -1
  }

  datatype Problem = BadFormat | TooFewFields(got: nat) | BadUtime | BadStime | BadRss

  datatype Stat =
    | Parsed(name: string, utime: nat, stime: nat, rssPages: nat, state: string)
    | Failed(name: string, problem: Problem)
    | Panics

  function ParseStatString(s: string): Stat {
    ParseAt(s, FirstIndex(s, '('), LastIndex(s, ')'))
  }

  function ParseAt(s: string, lparen: int, rparen: int): Stat
    requires -1 <= lparen < |s| && -1 <= rparen < |s| && (lparen == rparen ==> lparen < 0)
  {
    if lparen < 0 || rparen < lparen then Failed("", BadFormat)
    else if rparen + 2 > |s| then Panics
    else ParseRest(s[lparen + 1..rparen], Fields(s[rparen + 2..]))
  }

  function ParseRest(name: string, rest: seq<string>): Stat {
    if |rest| < 22 then Failed(name, TooFewFields(|rest|))
    else
      var utime := ParseUint(rest[11]);
      var stime := ParseUint(rest[12]);
      var rss := ParseUint(rest[21]);
      if utime.None? then Failed(name, BadUtime)
      else if stime.None? then Failed(name, BadStime)
      else if rss.None? then Failed(name, BadRss)
      else Parsed(name, utime.value, stime.value, rss.value, rest[0])
  }

  /** The one slice out of bounds: the line ends in its last ')', and a '(' stands before it. */
  lemma PanicsExactly(s: string)
    ensures ParseStatString(s).Panics? <==> s != "" && s[|s| - 1] == ')' && '(' in s
  {
  }

  function Line(pid: string, name: string, behind: string): string {
    pid + "(" + name + ")" + behind
  }

  /** Where the two parentheses are found. */
  lemma FindParens(pid: string, name: string, behind: string)
    requires '(' !in pid
    ensures var s := Line(pid, name, behind); FirstIndex(s, '(') == |pid| && s[|pid| + 1..][..|name|] == name
    ensures var s := Line(pid, name, behind); var close := |pid| + 1 + |name|;
      LastIndex(s, ')') == close <==> ')' !in behind
    ensures var s := Line(pid, name, behind); LastIndex(s, ')') >= |pid| + 1 + |name|
  {
    var s := Line(pid, name, behind);
    var close := |pid| + 1 + |name|;
    assert forall i :: 0 <= i < |pid| ==> s[i] == pid[i];
    IndexIs(s, '(', |pid|);
    assert s[close] == ')';
    assert s[close + 1..] == behind;
    assert forall i :: 0 <= i < |behind| ==> s[close + 1 + i] == behind[i];
    assert forall i :: close < i < |s| ==> s[i] == behind[i - close - 1];
  }

  function NameOf(r: Stat): Option<string> {
    if r.Panics? then None else Some(r.name)
  }

  /** Any command name comes back, parentheses, blanks and newlines included, exactly when no ')' stands behind it. */
  lemma NameRecovered(pid: string, name: string, behind: string)
    requires '(' !in pid && behind != ""
    ensures NameOf(ParseStatString(Line(pid, name, behind))) == Some(name) <==> ')' !in behind
  {
    FindParens(pid, name, behind);
    var s := Line(pid, name, behind);
    var close := |pid| + 1 + |name|;
    if ')' !in behind {
      assert s[|pid| + 1..close] == name;
    } else {
      var r := LastIndex(s, ')');
      assert r > close;
      assert |s[|pid| + 1..r]| > |name|;
    }
  }

  /** Any mix of fields: at least 22, without white space or ')'. */
  ghost predicate Tail(ws: seq<string>) {
    |ws| >= 22 && forall i :: 0 <= i < |ws| ==> Word(ws[i]) && ')' !in ws[i]
  }

  lemma {:induction false} BlankHasNoParen(s: string)
    requires Blank(s)
    ensures ')' !in s
    decreases |s|
  {
    if s == "" {
    } else {
      var n := SpaceLen(s);
      BlankHasNoParen(s[n..]);
      assert s == s[..n] + s[n..];
    }
  }

  lemma {:induction false} SpacedHasNoParen(gaps: seq<string>, ws: seq<string>)
    requires |gaps| == |ws| && Gaps(gaps) && forall i :: 0 <= i < |ws| ==> ')' !in ws[i]
    ensures ')' !in Spaced(gaps, ws)
  {
    if ws == [] {
    } else {
      SpacedHasNoParen(gaps[1..], ws[1..]);
      BlankHasNoParen(gaps[0]);
    }
  }

  lemma SlicesOfLine(pid: string, name: string, behind: string)
    requires behind != ""
    ensures var s := Line(pid, name, behind); var close := |pid| + 1 + |name|;
      |s| >= close + 2 && s[|pid| + 1..close] == name && s[close + 2..] == behind[1..]
  {
  }

  lemma ParseLine(pid: string, name: string, behind: string)
    requires '(' !in pid && ')' !in behind && behind != ""
    ensures ParseStatString(Line(pid, name, behind)) == ParseRest(name, Fields(behind[1..]))
  {
    FindParens(pid, name, behind);
    SlicesOfLine(pid, name, behind);
  }

  /** Parsing inverts printing: any name, any gaps, any further fields, any white space at the end.
      The counters come back exactly when each fits in 64 bits. */
  lemma ParseInvertsPrint(pid: string, name: string, gaps: seq<string>, ws: seq<string>, trailer: string,
                          utime: nat, stime: nat, rss: nat)
    requires '(' !in pid && Tail(ws) && |gaps| == |ws| && Gaps(gaps) && Blank(trailer)
    requires ws[11] == Dec(utime) && ws[12] == Dec(stime) && ws[21] == Dec(rss)
    ensures var r := ParseStatString(Line(pid, name, " " + (Spaced(gaps, ws) + trailer)));
      && (r == Parsed(name, utime, stime, rss, ws[0]) <==> utime < UINT64_END && stime < UINT64_END && rss < UINT64_END)
      && (r.Parsed? || (r.Failed? && r.name == name && r.problem in {BadUtime, BadStime, BadRss}))
  {
    var tail := Spaced(gaps, ws) + trailer;
    SpacedHasNoParen(gaps, ws);
    BlankHasNoParen(trailer);
    FieldsOfSpaced(gaps, ws, trailer);
    assert (" " + tail)[1..] == tail;
    ParseLine(pid, name, " " + tail);
    ParseDec(utime);
    ParseDec(stime);
    ParseDec(rss);
  }

  /** The fields as the kernel prints them, each behind one blank. */
  function BehindBlanks(ws: seq<string>): string {
    if ws == [] then "" else " " + ws[0] + BehindBlanks(ws[1..])
  }

  predicate Printable(w: string) { w != "" && forall i :: 0 <= i < |w| ==> '!' <= w[i] <= '~' && w[i] != ')' }

  lemma PrintableIsWord(w: string)
    requires Printable(w)
    ensures Word(w) && ')' !in w
  {
  }

  lemma {:induction false} BlankGaps(gaps: seq<string>, ws: seq<string>)
    requires |gaps| == |ws| && forall i :: 0 <= i < |gaps| ==> gaps[i] == " "
    ensures Spaced(gaps, ws) == BehindBlanks(ws)
  {
    if ws != [] {
      BlankGaps(gaps[1..], ws[1..]);
    }
  }

  /** A line of the kernel's own making: fields of printable ASCII behind one blank each, and a newline. */
  lemma KernelLineParses(pid: string, name: string, ws: seq<string>, utime: nat, stime: nat, rss: nat)
    requires '(' !in pid && |ws| >= 22 && forall i :: 0 <= i < |ws| ==> Printable(ws[i])
    requires ws[11] == Dec(utime) && ws[12] == Dec(stime) && ws[21] == Dec(rss)
    requires utime <= 18446744073709551615 && stime <= 18446744073709551615 && rss <= 18446744073709551615
    ensures ParseStatString(pid + "(" + name + ")" + (BehindBlanks(ws) + "\n"))
         == Parsed(name, utime, stime, rss, ws[0])
  {
    var others := seq(|ws| - 1, i => " ");
    forall i | 0 <= i < |ws| ensures Word(ws[i]) && ')' !in ws[i] {
      PrintableIsWord(ws[i]);
    }
    assert Blank(" ") && Blank("\n");
    ParseInvertsPrint(pid, name, [""] + others, ws, "\n", utime, stime, rss);
    FirstBlank(others, ws);
  }

  lemma FirstBlank(others: seq<string>, ws: seq<string>)
    requires 1 + |others| == |ws| && forall i :: 0 <= i < |others| ==> others[i] == " "
    ensures " " + (Spaced([""] + others, ws) + "\n") == BehindBlanks(ws) + "\n"
  {
    var gaps, rest := [""] + others, BehindBlanks(ws[1..]);
    BlankGaps(others, ws[1..]);
    assert gaps[0] == "" && gaps[1..] == others;
    assert Spaced(gaps, ws) == "" + ws[0] + rest;
    Glue(ws[0], rest);
  }

  lemma Glue(w: string, rest: string)
    ensures " " + ("" + w + rest + "\n") == " " + w + rest + "\n"
  {
  }
}
