/** The .env file of the command-line tool: parse, merge, print.
    monstack-cli/internal/envfile/envfile.go */
module EnvFile {
  import opened Prelude
  import opened Text

  type Env = map<string, string>

  // ---- Parsing -------------------------------------------------------------------------------

  function ParseLine(m: Env, line: string): Env {
    var kv := Cut(line);
    if kv.Some? && kv.value.0 != "" then m[kv.value.0 := kv.value.1] else m
  }

  function ParseLines(ls: seq<string>): Env {
    if ls == [] then map[] else ParseLine(ParseLines(ls[..|ls| - 1]), ls[|ls| - 1])
  }

  function Parsed(b: string): Env { ParseLines(Lines(b)) }

  method ParseEnv(b: string) returns (m: Env)
    ensures m == Parsed(b)
  {
    m := map[];
    var lineStart := 0;
    ghost var done: seq<string> := [];
    assert b[..0] == "" && b[0..0] == "";
    for i := 0 to |b| + 1
      invariant i <= |b| ==> 0 <= lineStart <= i && Lines(b[..i]) == done + [b[lineStart..i]]
      invariant i == |b| + 1 ==> Lines(b) == done
      invariant m == ParseLines(done)
    {
      assert i == |b| ==> b[..i] == b;
      if i == |b| || b[i] == '\n' {
        m := ParseOne(m, b[lineStart..i]);
        ghost var before := done;
        done := done + [b[lineStart..i]];
        assert done[..|before|] == before;
        if i < |b| { NextLine(b, i, before, lineStart); }
        lineStart := i + 1;
      } else {
        NextLine(b, i, done, lineStart);
      }
    }
  }

  lemma NextLine(b: string, i: nat, done: seq<string>, lineStart: nat)
    requires lineStart <= i < |b| && Lines(b[..i]) == done + [b[lineStart..i]]
    ensures Lines(b[..i + 1]) ==
      if b[i] == '\n' then done + [b[lineStart..i]] + [b[i + 1..i + 1]] else done + [b[lineStart..i + 1]]
  {
    LinesSnoc(b[..i], b[i]);
    assert b[..i] + [b[i]] == b[..i + 1];
    AddCharBehind(done, [b[lineStart..i]], b[i]);
    assert b[lineStart..i] + [b[i]] == b[lineStart..i + 1] && b[i + 1..i + 1] == "";
  }

  /** The inner loop: cut one line at its first '='. */
  method ParseOne(start: Env, line: string) returns (m: Env)
    ensures m == ParseLine(start, line)
  {
    m := start;
    for j := 0 to |line|
      invariant IndexFrom(line, '=', 0) == IndexFrom(line, '=', j)
      invariant m == start
    {
      if line[j] == '=' {
        var k := line[..j];
        var v := line[j + 1..];
        if k != "" {
          m := m[k := v];
        }
        break;
      }
    }
  }

  /** What a .env file can hold: keys non-empty and without '=', nothing with a newline. */
  ghost predicate WellFormed(m: Env) {
    forall k :: k in m ==> k != "" && '=' !in k && OneLine(k) && OneLine(m[k])
  }

  lemma {:induction false} ParsedLinesWellFormed(ls: seq<string>)
    requires forall l :: l in ls ==> OneLine(l)
    ensures WellFormed(ParseLines(ls))
  {
    if ls == [] {
    } else {
      var init, last := ls[..|ls| - 1], ls[|ls| - 1];
      assert last in ls && forall l :: l in init ==> l in ls;
      ParsedLinesWellFormed(init);
      if Cut(last).Some? { CutParts(last); }
    }
  }

  lemma ParsedWellFormed(b: string)
    ensures WellFormed(Parsed(b))
  {
    LinesAreOneLine(b);
    ParsedLinesWellFormed(Lines(b));
  }

  // ---- Printing ------------------------------------------------------------------------------

  function NonEmpty(m: Env): Env { map k | k in m && m[k] != "" :: m[k] }

  function Content(es: seq<(string, string)>): string {
    if es == [] then "" else Content(es[..|es| - 1]) + Entry(es[|es| - 1]) + "\n"
  }

  function Entry(e: (string, string)): string { e.0 + "=" + e.1 }

  /** `es` lists every entry of `m` once, in some order. */
  ghost predicate Lists(es: seq<(string, string)>, m: Env) {
    && (forall i, j :: 0 <= i < j < |es| ==> es[i].0 != es[j].0)
    && (forall e :: e in es <==> e.0 in m && m[e.0] == e.1)
  }

  /** A text Generate may write for `m`, whatever order the map is walked in. */
  ghost predicate Prints(content: string, m: Env) {
    exists es :: content == Content(es) && Lists(es, NonEmpty(m))
  }

  function MapOf(es: seq<(string, string)>): Env {
    if es == [] then map[] else MapOf(es[..|es| - 1])[es[|es| - 1].0 := es[|es| - 1].1]
  }

  lemma {:induction false} MapOfEntries(es: seq<(string, string)>)
    requires forall i, j :: 0 <= i < j < |es| ==> es[i].0 != es[j].0
    ensures forall e :: e in es ==> e.0 in MapOf(es) && MapOf(es)[e.0] == e.1
    ensures forall k :: k in MapOf(es) ==> (k, MapOf(es)[k]) in es
  {
    if es == [] {
    } else {
      MapOfEntries(es[..|es| - 1]);
      assert es == es[..|es| - 1] + [es[|es| - 1]];
    }
  }

  lemma ListsIsMapOf(es: seq<(string, string)>, m: Env)
    requires Lists(es, m)
    ensures MapOf(es) == m
  {
    MapOfEntries(es);
    forall k | k in m ensures k in MapOf(es) && MapOf(es)[k] == m[k] {
      assert (k, m[k]) in es;
    }
  }

  lemma {:induction false} ContentLines(es: seq<(string, string)>)
    requires forall e :: e in es ==> e.0 != "" && '=' !in e.0 && OneLine(e.0) && OneLine(e.1)
    ensures var ls := Lines(Content(es));
      ls[|ls| - 1] == "" && ParseLines(ls) == MapOf(es) == ParseLines(ls[..|ls| - 1])
  {
    if es == [] {
      assert Lines("") == [""] && [""][..0] == [] && Cut("") == None;
    } else {
      var init, e := es[..|es| - 1], es[|es| - 1];
      assert e in es && forall x :: x in init ==> x in es;
      ContentLines(init);
      CutPrinted(e.0, e.1);
      EntryIsOneLine(e);
      LinesEndLine(Content(init), Entry(e));
      ParseTwoMore(Lines(Content(init))[..|Lines(Content(init))| - 1], Entry(e));
    }
  }

  lemma EntryIsOneLine(e: (string, string))
    requires OneLine(e.0) && OneLine(e.1)
    ensures OneLine(Entry(e))
  {
  }

  lemma ParseTwoMore(ls: seq<string>, line: string)
    ensures ParseLines(ls + [line] + [""]) == ParseLine(ParseLines(ls), line)
    ensures ParseLines((ls + [line] + [""])[..|ls| + 1]) == ParseLine(ParseLines(ls), line)
  {
    assert (ls + [line] + [""])[..|ls| + 1] == ls + [line] && (ls + [line])[..|ls|] == ls;
    assert Cut("") == None;
  }

  /** A text that ends a line, then one more line. */
  lemma LinesEndLine(before: string, line: string)
    requires OneLine(line) && Lines(before)[|Lines(before)| - 1] == ""
    ensures var ls := Lines(before); Lines(before + line + "\n") == ls[..|ls| - 1] + [line] + [""]
  {
    LinesExtend(before, line);
    LinesSnoc(before + line, '\n');
    assert before + line + "\n" == before + line + ['\n'];
    assert "" + line == line;
  }

  /** More text behind the last line. */
  function ExtendLast(ls: seq<string>, s: string): (more: seq<string>)
    requires |ls| >= 1
    ensures |more| >= 1
  {
    ls[..|ls| - 1] + [ls[|ls| - 1] + s]
  }

  lemma ExtendLastSnoc(ls: seq<string>, init: string, c: char)
    requires |ls| >= 1 && c != '\n'
    ensures AddChar(ExtendLast(ls, init), c) == ExtendLast(ls, init + [c])
  {
    var some := ExtendLast(ls, init);
    assert some[..|some| - 1] == ls[..|ls| - 1];
    assert ls[|ls| - 1] + init + [c] == ls[|ls| - 1] + (init + [c]);
  }

  lemma LinesOneMore(text: string, c: char, ls: seq<string>, init: string)
    requires |ls| >= 1 && c != '\n' && Lines(text) == ExtendLast(ls, init)
    ensures Lines(text + [c]) == ExtendLast(ls, init + [c])
  {
    LinesSnoc(text, c);
    ExtendLastSnoc(ls, init, c);
  }

  lemma ExtendLastByNothing(ls: seq<string>)
    requires |ls| >= 1
    ensures ExtendLast(ls, "") == ls
  {
    assert ls[|ls| - 1] + "" == ls[|ls| - 1];
  }

  lemma {:induction false} LinesExtend(before: string, s: string)
    requires OneLine(s)
    ensures Lines(before + s) == ExtendLast(Lines(before), s)
  {
    if s == "" {
      assert before + s == before;
      ExtendLastByNothing(Lines(before));
    } else {
      var init, c := s[..|s| - 1], s[|s| - 1];
      assert c in s && s == init + [c];
      LinesExtend(before, init);
      LinesOneMore(before + init, c, Lines(before), init);
      Regroup(before, init, [c]);
    }
  }

  /** Parsing what was printed gives the non-empty entries back exactly when they are well-formed. */
  lemma PrintThenParse(content: string, m: Env)
    requires Prints(content, m)
    ensures Parsed(content) == NonEmpty(m) <==> WellFormed(NonEmpty(m))
  {
    ParsedWellFormed(content);
    if WellFormed(NonEmpty(m)) {
      var es :| content == Content(es) && Lists(es, NonEmpty(m));
      ContentLines(es);
      ListsIsMapOf(es, NonEmpty(m));
    }
  }

  // ---- Merging -------------------------------------------------------------------------------

  type byte = x: int | 0 <= x < 256

  function HexDigit(d: int): char
    requires 0 <= d < 16
  {
    if d < 10 then '0' + d as char else 'a' + (d - 10) as char
  }

  /** The value of a lower-case hexadecimal digit, -1 for any other character. */
  function HexValue(c: char): int {
    if '0' <= c <= '9' then c as int - '0' as int
    else if 'a' <= c <= 'f' then c as int - 'a' as int + 10
    else -1
  }

  /** The bytes a text of hexadecimal digits stands for. */
  function Decoded(s: string): seq<int>
    requires |s| % 2 == 0
  {
    if s == "" then [] else [16 * HexValue(s[0]) + HexValue(s[1])] + Decoded(s[2..])
  }

  /** Lower-case hexadecimal, two digits a byte. */
  function HexEncode(b: seq<byte>): (s: string)
    ensures |s| == 2 * |b| && OneLine(s) && Decoded(s) == b
  {
    if b == [] then "" else [HexDigit(b[0] / 16), HexDigit(b[0] % 16)] + HexEncode(b[1..])
  }

  function Get(m: Env, k: string): string { if k in m then m[k] else "" }

  function Set(m: Env, k: string, v: string): Env {
    if v != "" || Get(m, k) == "" then m[k := v] else m
  }

  /** The arguments of Generate; `jwtRandom` and `agentRandom` are the bytes the generator would draw. */
  datatype Args = Args(overwrite: bool, jwtSecret: string, agentSecret: string, adminPassword: string,
                       jwtRandom: seq<byte>, agentRandom: seq<byte>)

  predicate Drawn(a: Args) { |a.jwtRandom| == 32 && |a.agentRandom| == 16 }

  function Secret(given: string, random: seq<byte>): string {
    if given == "" then HexEncode(random) else given
  }

  const DEFAULT_DB := "postgresql://" + "postgres:postgres" + "@postgres:5432" + "/monitoring"

  function WithSecret(m: Env, overwrite: bool, k: string, given: string, random: seq<byte>): Env {
    if overwrite || Get(m, k) == "" then Set(m, k, Secret(given, random)) else m
  }

  function WithPassword(m: Env, given: string): Env {
    if given != "" then Set(m, "ADMIN_PASSWORD", given) else m
  }

  function WithDefault(m: Env, k: string, v: string): Env {
    if Get(m, k) == "" then Set(m, k, v) else m
  }

  function WithSecrets(m: Env, a: Args): Env {
    WithSecret(WithSecret(m, a.overwrite, "JWT_SECRET", a.jwtSecret, a.jwtRandom),
               a.overwrite, "AGENT_COMMAND_SECRET", a.agentSecret, a.agentRandom)
  }

  function WithDefaults(m: Env): Env {
    WithDefault(WithDefault(m, "AUTH_ENABLED", "false"), "DATABASE_URL", DEFAULT_DB)
  }

  function Merged(m: Env, a: Args): Env {
    WithDefaults(WithPassword(WithSecrets(m, a), a.adminPassword))
  }

  const ORDER := ["DATABASE_URL", "JWT_SECRET", "AUTH_ENABLED", "AGENT_COMMAND_SECRET", "ADMIN_PASSWORD"]

  /** `file` is the old contents, None when it cannot be read; the new contents are returned. */
  method Generate(file: Option<string>, a: Args) returns (content: string)
    requires Drawn(a)
    ensures Prints(content, Merged(if file.Some? then Parsed(file.value) else map[], a))
    ensures var start := if file.Some? then Parsed(file.value) else map[];
      ArgsOneLine(start, a) ==> Wrote(start, a, Parsed(content))
  {
    var existing: Env := map[];
    if file.Some? {
      existing := ParseEnv(file.value);
    }
    existing := FillSecrets(existing, a);
    if a.adminPassword != "" {
      existing := Set(existing, "ADMIN_PASSWORD", a.adminPassword);
    }
    existing := FillDefaults(existing);
    content := Print(existing);
    if file.Some? {
      ParsedWellFormed(file.value);
    }
    GeneratedWrote(if file.Some? then Parsed(file.value) else map[], a, content);
  }

  method FillSecrets(start: Env, a: Args) returns (existing: Env)
    requires Drawn(a)
    ensures existing == WithSecrets(start, a)
  {
    existing := start;
    if a.overwrite || Get(existing, "JWT_SECRET") == "" {
      var jwtSecret := if a.jwtSecret == "" then HexEncode(a.jwtRandom) else a.jwtSecret;
      existing := Set(existing, "JWT_SECRET", jwtSecret);
    }
    assert existing == WithSecret(start, a.overwrite, "JWT_SECRET", a.jwtSecret, a.jwtRandom);
    if a.overwrite || Get(existing, "AGENT_COMMAND_SECRET") == "" {
      var agentSecret := if a.agentSecret == "" then HexEncode(a.agentRandom) else a.agentSecret;
      existing := Set(existing, "AGENT_COMMAND_SECRET", agentSecret);
    }
  }

  method FillDefaults(start: Env) returns (existing: Env)
    ensures existing == WithDefaults(start)
  {
    existing := start;
    if Get(existing, "AUTH_ENABLED") == "" {
      existing := Set(existing, "AUTH_ENABLED", "false");
    }
    if Get(existing, "DATABASE_URL") == "" {
      existing := Set(existing, "DATABASE_URL", DEFAULT_DB);
    }
  }

  /** First the known keys in their order, then the rest as the map yields them. */
  method Print(existing: Env) returns (content: string)
    ensures Prints(content, existing)
  {
    content := "";
    ghost var es: seq<(string, string)> := [];
    for i := 0 to |ORDER|
      invariant content == Content(es) && ListsOf(es, existing, Ordered(i))
    {
      var k := ORDER[i];
      OrderedMore(i);
      if Get(existing, k) != "" {
        content := content + (k + "=" + Get(existing, k)) + "\n";
      }
      es := ListMore(es, existing, Ordered(i), k);
    }
    var rest := existing.Keys;
    while rest != {}
      invariant rest <= existing.Keys
      invariant content == Content(es) && ListsOf(es, existing, Ordered(|ORDER|) + (existing.Keys - rest))
      decreases |rest|
    {
      var k :| k in rest;
      ghost var before := Ordered(|ORDER|) + (existing.Keys - rest);
      rest := rest - {k};
      assert Ordered(|ORDER|) + (existing.Keys - rest) == before + {k};
      if existing[k] == "" {
        es := ListMore(es, existing, before, k);
        continue;
      }
      var seen := k in ORDER;
      if seen {
        assert before + {k} == before;
      } else {
        content := content + (k + "=" + existing[k]) + "\n";
        es := ListMore(es, existing, before, k);
      }
    }
    assert Lists(es, NonEmpty(existing));
  }

  ghost function Ordered(i: nat): set<string>
    requires i <= |ORDER|
  {
    set k | k in ORDER[..i]
  }

  lemma OrderedMore(i: nat)
    requires i < |ORDER|
    ensures Ordered(i + 1) == Ordered(i) + {ORDER[i]} && ORDER[i] !in Ordered(i)
  {
    assert ORDER[..i + 1] == ORDER[..i] + [ORDER[i]];
    forall j | 0 <= j < i ensures ORDER[j] != ORDER[i] {
      assert |ORDER[j]| != |ORDER[i]| || ORDER[j][0] != ORDER[i][0];
    }
  }

  /** `es` lists the non-empty entries of `m` whose keys are in `keys`. */
  ghost predicate ListsOf(es: seq<(string, string)>, m: Env, keys: set<string>) {
    && (forall i, j :: 0 <= i < j < |es| ==> es[i].0 != es[j].0)
    && (forall e :: e in es <==> e.0 in keys && e.0 in m && m[e.0] == e.1 && e.1 != "")
  }

  ghost function ListMore(es: seq<(string, string)>, m: Env, keys: set<string>, k: string)
    : (more: seq<(string, string)>)
    requires ListsOf(es, m, keys)
    requires k !in keys || Get(m, k) == ""
    ensures ListsOf(more, m, keys + {k})
    ensures more == if Get(m, k) != "" then es + [(k, m[k])] else es
  {
    if Get(m, k) != "" then es + [(k, m[k])] else es
  }

  // ---- What Generate promises ----------------------------------------------------------------

  /** Without overwrite a non-empty entry stays, except the admin password when one is given. */
  lemma ExistingKept(m: Env, a: Args, k: string)
    requires !a.overwrite && Get(m, k) != ""
    requires k != "ADMIN_PASSWORD" || a.adminPassword == ""
    ensures Get(Merged(m, a), k) == m[k]
  {
  }

  /** What a run with these arguments makes of the entries `start`, read back as `m`: a secret that is missing, or to be
      overwritten, is the given one, or else the drawn bytes in hexadecimal; the password is the given one; the two
      defaults are filled in; all else stays. */
  ghost predicate Wrote(start: Env, a: Args, m: Env) {
    && WroteSecret(start, m, a.overwrite, "JWT_SECRET", a.jwtSecret, a.jwtRandom)
    && WroteSecret(start, m, a.overwrite, "AGENT_COMMAND_SECRET", a.agentSecret, a.agentRandom)
    && WrotePassword(start, m, "ADMIN_PASSWORD", a.adminPassword)
    && WroteDefault(start, m, "AUTH_ENABLED", "false")
    && WroteDefault(start, m, "DATABASE_URL",
                    "postgresql://" + "postgres:postgres" + "@postgres:5432" + "/monitoring")
    && (forall k :: k !in ORDER ==> Get(m, k) == Get(start, k))
  }

  ghost predicate WroteSecret(start: Env, m: Env, overwrite: bool, k: string, given: string, random: seq<byte>) {
    if !overwrite && Get(start, k) != "" then Get(m, k) == Get(start, k)
    else if given != "" then Get(m, k) == given
    else |Get(m, k)| == 2 * |random| && Decoded(Get(m, k)) == random
  }

  ghost predicate WroteDefault(start: Env, m: Env, k: string, v: string) {
    Get(m, k) == if Get(start, k) == "" then v else Get(start, k)
  }

  /** From `m` to `n` only this entry may change. */
  ghost predicate Only(m: Env, n: Env, k: string) { forall x :: x != k ==> Get(n, x) == Get(m, x) }

  ghost predicate WrotePassword(start: Env, m: Env, k: string, given: string) {
    Get(m, k) == if given != "" then given else Get(start, k)
  }

  lemma SecretWritten(m: Env, overwrite: bool, k: string, given: string, random: seq<byte>)
    requires random != []
    ensures var n := WithSecret(m, overwrite, k, given, random);
      WroteSecret(m, n, overwrite, k, given, random) && Only(m, n, k)
  {
  }

  lemma PasswordWritten(m: Env, given: string)
    ensures var n := WithPassword(m, given);
      WrotePassword(m, n, "ADMIN_PASSWORD", given) && Only(m, n, "ADMIN_PASSWORD")
  {
  }

  lemma DefaultWritten(m: Env, k: string, v: string)
    ensures var n := WithDefault(m, k, v); WroteDefault(m, n, k, v) && Only(m, n, k)
  {
  }

  lemma DistinctKeys()
    ensures forall i, j :: 0 <= i < j < |ORDER| ==> ORDER[i] != ORDER[j]
  {
    assert |ORDER[0]| == 12 && |ORDER[1]| == 10 && |ORDER[2]| == 12 && |ORDER[3]| == 20 && |ORDER[4]| == 14;
    assert ORDER[0][0] == 'D' && ORDER[2][0] == 'A';
  }

  /** Five steps that change one entry each, all of different keys: each entry is what its own step made of it. */
  lemma StepsApart(m: seq<Env>, a: Args, k: seq<string>, auth: string, db: string)
    requires |m| == 6 && |k| == 5 && forall i, j :: 0 <= i < j < 5 ==> k[i] != k[j]
    requires WroteSecret(m[0], m[1], a.overwrite, k[1], a.jwtSecret, a.jwtRandom) && Only(m[0], m[1], k[1])
    requires WroteSecret(m[1], m[2], a.overwrite, k[3], a.agentSecret, a.agentRandom) && Only(m[1], m[2], k[3])
    requires WrotePassword(m[2], m[3], k[4], a.adminPassword) && Only(m[2], m[3], k[4])
    requires WroteDefault(m[3], m[4], k[2], auth) && Only(m[3], m[4], k[2])
    requires WroteDefault(m[4], m[5], k[0], db) && Only(m[4], m[5], k[0])
    ensures WroteSecret(m[0], m[5], a.overwrite, k[1], a.jwtSecret, a.jwtRandom)
    ensures WroteSecret(m[0], m[5], a.overwrite, k[3], a.agentSecret, a.agentRandom)
    ensures WrotePassword(m[0], m[5], k[4], a.adminPassword)
    ensures WroteDefault(m[0], m[5], k[2], auth) && WroteDefault(m[0], m[5], k[0], db)
    ensures forall x :: x !in k ==> Get(m[5], x) == Get(m[0], x)
  {
    forall x | x !in k ensures Get(m[5], x) == Get(m[0], x) {
      assert forall i :: 0 <= i < 5 ==> k[i] in k;
    }
  }

  lemma MergedWrote(start: Env, a: Args)
    requires Drawn(a)
    ensures Wrote(start, a, Merged(start, a))
  {
    var m1 := WithSecret(start, a.overwrite, "JWT_SECRET", a.jwtSecret, a.jwtRandom);
    var m2, m3 := WithSecrets(start, a), WithPassword(WithSecrets(start, a), a.adminPassword);
    var m4 := WithDefault(m3, "AUTH_ENABLED", "false");
    SecretWritten(start, a.overwrite, "JWT_SECRET", a.jwtSecret, a.jwtRandom);
    SecretWritten(m1, a.overwrite, "AGENT_COMMAND_SECRET", a.agentSecret, a.agentRandom);
    PasswordWritten(m2, a.adminPassword);
    DefaultWritten(m3, "AUTH_ENABLED", "false");
    DefaultWritten(m4, "DATABASE_URL", DEFAULT_DB);
    DistinctKeys();
    StepsApart([start, m1, m2, m3, m4, Merged(start, a)], a, ORDER, "false", DEFAULT_DB);
  }

  /** So does the file, as long as no argument that was used holds a newline. */
  lemma GeneratedWrote(start: Env, a: Args, content: string)
    requires Drawn(a) && WellFormed(start) && Prints(content, Merged(start, a))
    ensures ArgsOneLine(start, a) ==> Wrote(start, a, Parsed(content))
  {
    if ArgsOneLine(start, a) {
      MergedWellFormed(start, a);
      PrintThenParse(content, Merged(start, a));
      MergedWrote(start, a);
      SameEntries(start, a, Merged(start, a), Parsed(content));
    }
  }

  lemma SameEntries(start: Env, a: Args, m: Env, n: Env)
    requires Wrote(start, a, m) && n == NonEmpty(m)
    ensures Wrote(start, a, n)
  {
    assert forall k :: Get(n, k) == Get(m, k);
  }

  /** Two runs that draw their secrets and draw differently write different secrets. */
  lemma DrawsShow(start: Env, a: Args, content: string, start2: Env, b: Args, content2: string)
    requires Drawn(a) && WellFormed(start) && Prints(content, Merged(start, a)) && ArgsOneLine(start, a)
    requires Drawn(b) && WellFormed(start2) && Prints(content2, Merged(start2, b)) && ArgsOneLine(start2, b)
    requires a.overwrite || Get(start, "JWT_SECRET") == "" == Get(start, "AGENT_COMMAND_SECRET")
    requires b.overwrite || Get(start2, "JWT_SECRET") == "" == Get(start2, "AGENT_COMMAND_SECRET")
    requires a.jwtSecret == b.jwtSecret == a.agentSecret == b.agentSecret == ""
    ensures a.jwtRandom != b.jwtRandom ==> Get(Parsed(content), "JWT_SECRET") != Get(Parsed(content2), "JWT_SECRET")
    ensures a.agentRandom != b.agentRandom ==>
      Get(Parsed(content), "AGENT_COMMAND_SECRET") != Get(Parsed(content2), "AGENT_COMMAND_SECRET")
  {
    GeneratedWrote(start, a, content);
    GeneratedWrote(start2, b, content2);
  }

  /** The secrets, AUTH_ENABLED and DATABASE_URL always end up set; what is given wins where it may. */
  lemma AlwaysSet(m: Env, a: Args)
    requires Drawn(a)
    ensures var r := Merged(m, a);
      && Get(r, "JWT_SECRET") != "" && Get(r, "AGENT_COMMAND_SECRET") != ""
      && Get(r, "AUTH_ENABLED") != "" && Get(r, "DATABASE_URL") != ""
      && (a.overwrite || Get(m, "JWT_SECRET") == "" ==> r["JWT_SECRET"] == Secret(a.jwtSecret, a.jwtRandom))
      && (a.overwrite || Get(m, "AGENT_COMMAND_SECRET") == "" ==>
            r["AGENT_COMMAND_SECRET"] == Secret(a.agentSecret, a.agentRandom))
      && (a.adminPassword != "" ==> Get(r, "ADMIN_PASSWORD") == a.adminPassword)
  {
  }

  /** The arguments that make it into the file hold no newline. */
  predicate ArgsOneLine(m: Env, a: Args) {
    && (a.overwrite || Get(m, "JWT_SECRET") == "" ==> OneLine(a.jwtSecret))
    && (a.overwrite || Get(m, "AGENT_COMMAND_SECRET") == "" ==> OneLine(a.agentSecret))
    && OneLine(a.adminPassword)
  }

  predicate KeyOk(k: string) { k != "" && '=' !in k && OneLine(k) }

  ghost predicate PrintsWell(m: Env) { WellFormed(NonEmpty(m)) }

  /** A well-formed entry keeps a map well-formed. */
  lemma SetPrintsWell(m: Env, c: bool, k: string, v: string)
    requires PrintsWell(m) && KeyOk(k) && (c ==> OneLine(v))
    ensures PrintsWell(if c then Set(m, k, v) else m)
  {
    var n := NonEmpty(if c then Set(m, k, v) else m);
    forall x | x in n ensures KeyOk(x) && OneLine(n[x]) {
      assert x == k || x in NonEmpty(m);
    }
  }

  lemma DefaultsAreOneLine()
    ensures OneLine("false") && OneLine(DEFAULT_DB)
  {
    assert OneLine("postgresql://") && OneLine("postgres:postgres");
    assert OneLine("@postgres:5432") && OneLine("/monitoring");
  }

  lemma DefaultsPrintWell(m: Env)
    requires PrintsWell(m)
    ensures PrintsWell(WithDefaults(m))
  {
    DefaultsAreOneLine();
    SetPrintsWell(m, Get(m, "AUTH_ENABLED") == "", "AUTH_ENABLED", "false");
    var m1 := WithDefault(m, "AUTH_ENABLED", "false");
    SetPrintsWell(m1, Get(m1, "DATABASE_URL") == "", "DATABASE_URL", DEFAULT_DB);
  }

  lemma SecretPrintsWell(m: Env, overwrite: bool, k: string, given: string, random: seq<byte>)
    requires PrintsWell(m) && KeyOk(k) && (overwrite || Get(m, k) == "" ==> OneLine(given))
    ensures PrintsWell(WithSecret(m, overwrite, k, given, random))
  {
    SetPrintsWell(m, overwrite || Get(m, k) == "", k, Secret(given, random));
  }

  lemma PasswordPrintsWell(m: Env, given: string)
    requires PrintsWell(m) && OneLine(given)
    ensures PrintsWell(WithPassword(m, given))
  {
    SetPrintsWell(m, given != "", "ADMIN_PASSWORD", given);
  }

  /** When the arguments used are one-line, every step keeps the entries well-formed. */
  lemma MergedPrintsWell(m: Env, a: Args)
    requires WellFormed(m) && ArgsOneLine(m, a)
    ensures PrintsWell(Merged(m, a))
  {
    SecretsPrintWell(m, a);
    var m1 := WithSecrets(m, a);
    PasswordPrintsWell(m1, a.adminPassword);
    DefaultsPrintWell(WithPassword(m1, a.adminPassword));
  }

  lemma JwtPrintsWell(m: Env, a: Args)
    requires PrintsWell(m) && ArgsOneLine(m, a)
    ensures var m1 := WithSecret(m, a.overwrite, "JWT_SECRET", a.jwtSecret, a.jwtRandom);
      PrintsWell(m1) && Get(m1, "AGENT_COMMAND_SECRET") == Get(m, "AGENT_COMMAND_SECRET")
  {
    SecretPrintsWell(m, a.overwrite, "JWT_SECRET", a.jwtSecret, a.jwtRandom);
  }

  lemma SecretsPrintWell(m: Env, a: Args)
    requires PrintsWell(m) && ArgsOneLine(m, a)
    ensures PrintsWell(WithSecrets(m, a))
  {
    JwtPrintsWell(m, a);
    var m1 := WithSecret(m, a.overwrite, "JWT_SECRET", a.jwtSecret, a.jwtRandom);
    SecretPrintsWell(m1, a.overwrite, "AGENT_COMMAND_SECRET", a.agentSecret, a.agentRandom);
  }

  lemma MergedWellFormed(m: Env, a: Args)
    requires WellFormed(m) && Drawn(a)
    ensures WellFormed(NonEmpty(Merged(m, a))) <==> ArgsOneLine(m, a)
  {
    if ArgsOneLine(m, a) {
      MergedPrintsWell(m, a);
    } else {
      NewlineGetsPrinted(m, a);
    }
  }

  /** An argument with a newline that is used lands in the file. */
  lemma NewlineGetsPrinted(m: Env, a: Args)
    requires Drawn(a) && !ArgsOneLine(m, a)
    ensures !WellFormed(NonEmpty(Merged(m, a)))
  {
    AlwaysSet(m, a);
    var r := Merged(m, a);
    var k := if !OneLine(a.adminPassword) then "ADMIN_PASSWORD"
             else if !OneLine(a.jwtSecret) && (a.overwrite || Get(m, "JWT_SECRET") == "") then "JWT_SECRET"
             else "AGENT_COMMAND_SECRET";
    assert k in NonEmpty(r) && !OneLine(r[k]);
  }

  /** What Generate wrote reads back as the merged entries exactly when no argument it used has a newline. */
  lemma GeneratedReadsBack(file: string, a: Args, content: string)
    requires Drawn(a) && Prints(content, Merged(Parsed(file), a))
    ensures Parsed(content) == NonEmpty(Merged(Parsed(file), a)) <==> ArgsOneLine(Parsed(file), a)
  {
    ParsedWellFormed(file);
    MergedWellFormed(Parsed(file), a);
    PrintThenParse(content, Merged(Parsed(file), a));
  }

  predicate NoArguments(a: Args) { !a.overwrite && a.jwtSecret == a.agentSecret == a.adminPassword == "" }

  /** The four entries Generate insists on. */
  predicate Complete(m: Env) {
    && Get(m, "JWT_SECRET") != "" && Get(m, "AGENT_COMMAND_SECRET") != ""
    && Get(m, "AUTH_ENABLED") != "" && Get(m, "DATABASE_URL") != ""
  }

  /** A run with no arguments leaves what the file says as it is exactly when the four entries are there
      and none is empty. */
  lemma IdleRun(file: string, a: Args, content: string)
    requires Drawn(a) && NoArguments(a) && Prints(content, Merged(Parsed(file), a))
    ensures Parsed(content) == Parsed(file) <==> Complete(Parsed(file)) && NonEmpty(Parsed(file)) == Parsed(file)
  {
    var p := Parsed(file);
    var r := Merged(p, a);
    GeneratedReadsBack(file, a, content);
    AlwaysSet(p, a);
    if Complete(p) {
      assert r == p;
    }
    if NonEmpty(r) == p {
      SetInPrinted(r, p);
    }
  }

  lemma SetInPrinted(r: Env, p: Env)
    requires Complete(r) && NonEmpty(r) == p
    ensures Complete(p) && NonEmpty(p) == p
  {
    assert forall k :: Get(r, k) != "" ==> Get(p, k) == Get(r, k);
  }

  /** Running it again with no arguments changes nothing a reader of the file can see. */
  lemma SecondRunChangesNothing(file: string, a: Args, content: string, again: Args, content2: string)
    requires Drawn(a) && ArgsOneLine(Parsed(file), a) && Prints(content, Merged(Parsed(file), a))
    requires Drawn(again) && NoArguments(again) && Prints(content2, Merged(Parsed(content), again))
    ensures Parsed(content2) == Parsed(content)
  {
    GeneratedReadsBack(file, a, content);
    AlwaysSet(Parsed(file), a);
    SetInPrinted(Merged(Parsed(file), a), Parsed(content));
    IdleRun(content, again, content2);
  }
}
