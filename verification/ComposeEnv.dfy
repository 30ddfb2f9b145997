/** How `docker compose` gets its environment: the .env file laid over the process environment.
    monstack-cli/internal/docker/docker.go */
module ComposeEnv {
  import opened Prelude
  import opened Text
  import opened EnvFile

  method SplitLines(b: string) returns (lines: seq<string>)
    ensures lines == Lines(b)
    ensures Join(lines) == b && forall l :: l in lines ==> OneLine(l)
  {
    lines := [];
    var start := 0;
    assert b[..0] == "" && b[0..0] == "";
    for i := 0 to |b| + 1
      invariant i <= |b| ==> 0 <= start <= i && Lines(b[..i]) == lines + [b[start..i]]
      invariant i == |b| + 1 ==> Lines(b) == lines
    {
      assert i == |b| ==> b[..i] == b;
      if i < |b| { NextLine(b, i, lines, start); }
      if i == |b| || b[i] == '\n' {
        lines := lines + [b[start..i]];
        start := i + 1;
      }
    }
    JoinLines(b);
    LinesAreOneLine(b);
  }

  /** The entries the overlay loop appends. */
  function Entries(lines: seq<string>): seq<string> {
    if lines == [] then []
    else Entries(lines[..|lines| - 1]) + (if Cut(lines[|lines| - 1]).Some? then [lines[|lines| - 1]] else [])
  }

  /** The overlay loop: every line with a '=' goes behind the inherited environment. */
  method Overlay(environ: seq<string>, b: string) returns (env: seq<string>)
    ensures env == environ + Entries(Lines(b))
  {
    env := environ;
    var lines := SplitLines(b);
    for n := 0 to |lines|
      invariant env == environ + Entries(lines[..n])
    {
      assert lines[..n + 1][..n] == lines[..n];
      var line := lines[n];
      if |line| == 0 {
        continue;
      }
      ghost var before := env;
      for i := 0 to |line|
        invariant IndexFrom(line, '=', 0) == IndexFrom(line, '=', i)
        invariant env == before
      {
        if line[i] == '=' {
          var k, v := line[..i], line[i + 1..];
          assert k + "=" + v == line;
          env := env + [k + "=" + v];
          break;
        }
      }
    }
    assert lines[..|lines|] == lines;
  }

  /** The value a process started with this environment sees: the last entry for the key wins. */
  function Lookup(env: seq<string>, k: string): Option<string> {
    if env == [] then None
    else
      var kv := Cut(env[|env| - 1]);
      if kv.Some? && kv.value.0 == k then Some(kv.value.1) else Lookup(env[..|env| - 1], k)
  }

  /** Every non-empty key of the file reads as the .env parser reads it; all others stay inherited. */
  lemma {:induction false} OverlayLines(environ: seq<string>, lines: seq<string>, k: string)
    requires k != ""
    ensures var m := ParseLines(lines);
      Lookup(environ + Entries(lines), k) == if k in m then Some(m[k]) else Lookup(environ, k)
  {
    if lines == [] {
      assert environ + [] == environ;
    } else {
      var init, last := lines[..|lines| - 1], lines[|lines| - 1];
      OverlayLines(environ, init, k);
      var env := environ + Entries(lines);
      if Cut(last).Some? {
        assert env[|env| - 1] == last && env[..|env| - 1] == environ + Entries(init);
      } else {
        assert env == environ + Entries(init);
      }
    }
  }

  lemma OverlayReadsAsParsed(environ: seq<string>, b: string, k: string)
    requires k != ""
    ensures Lookup(environ + Entries(Lines(b)), k) == if k in Parsed(b) then Some(Parsed(b)[k]) else Lookup(environ, k)
  {
    OverlayLines(environ, Lines(b), k);
  }

  lemma ReadBackReachesCompose(content: string, r: Env, environ: seq<string>, k: string)
    requires Parsed(content) == NonEmpty(r) && Get(r, k) != ""
    ensures Lookup(environ + Entries(Lines(content)), k) == Some(r[k])
  {
    ParsedWellFormed(content);
    assert k in NonEmpty(r);
    OverlayReadsAsParsed(environ, content, k);
  }

  /** What Generate writes is what the containers get. */
  lemma GeneratedReachesCompose(file: string, a: Args, content: string, environ: seq<string>, k: string)
    requires Drawn(a) && ArgsOneLine(Parsed(file), a) && Prints(content, Merged(Parsed(file), a))
    requires Get(Merged(Parsed(file), a), k) != ""
    ensures Lookup(environ + Entries(Lines(content)), k) == Some(Merged(Parsed(file), a)[k])
  {
    var r := Merged(Parsed(file), a);
    GeneratedReadsBack(file, a, content);
    ReadBackReachesCompose(content, r, environ, k);
  }
}
