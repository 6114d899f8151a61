/** `insert_project_name_env_block`: put a `PROJECT_NAME` entry into the `env:` block
    of the header template, or prepend a new `env:` block when the header has none. */
module EnvBlock {
  import opened Text

  /** The text the guard looks for, and what a marker line strips to. */
  const Marker := "env:"

  /** The line that carries the project name. */
  function ProjectLine(project: string): (r: string)
    ensures '\n' !in r <==> '\n' !in project
  {
    "  PROJECT_NAME: " + project
  }

  /** A line that opens the `env:` block: it strips to exactly `env:`. */
  predicate IsEnvLine(line: string) {
    Strip(line) == Marker
  }

  predicate HasEnvLine(lines: seq<string>) {
    exists k | 0 <= k < |lines| :: IsEnvLine(lines[k])
  }

  /** The lines with `entry` placed right after the first `env:` line, if any. */
  function InsertAfterFirstEnvLine(lines: seq<string>, entry: string): (r: seq<string>)
    ensures |r| == |lines| + (if HasEnvLine(lines) then 1 else 0)
  {
    if lines == [] then []
    else if IsEnvLine(lines[0]) then [lines[0], entry] + lines[1..]
    else [lines[0]] + InsertAfterFirstEnvLine(lines[1..], entry)
  }

  /** What `insert_project_name_env_block(content, project)` returns: in every case
      the result still holds `env:`. */
  function InjectedHeader(content: string, project: string): (r: string)
    ensures Contains(r, Marker)
  {
    if Contains(content, Marker) then
      SplicedKeepsMarker(content, ProjectLine(project));
      JoinLines(InsertAfterFirstEnvLine(SplitLines(content), ProjectLine(project)))
    else
      var r := "env:\n" + ProjectLine(project) + "\n" + content;
      assert Marker <= r;
      r
  }

  /** Splicing an entry into the lines of a header that holds `env:` keeps `env:`. */
  lemma SplicedKeepsMarker(content: string, entry: string)
    requires Contains(content, Marker)
    ensures Contains(JoinLines(InsertAfterFirstEnvLine(SplitLines(content), entry)), Marker)
  {
    var lines := SplitLines(content);
    var spliced := InsertAfterFirstEnvLine(lines, entry);
    if HasEnvLine(lines) {
      var k := FirstEnvLine(lines);
      InsertAfterEnvLineAt(lines, entry, k);
      assert spliced[k] == lines[k];
      ContainsStripped(spliced[k], Marker);
      ContainsJoin(spliced, '\n', k, Marker);
    } else {
      InsertWithoutEnvLine(lines, entry);
      JoinSplitLines(content);
      if content[|content| - 1] == '\n' {
        ContainsDropLast(content, Marker);
      }
    }
  }

  /** With `k` the first `env:` line, the entry lands at position `k + 1` and every
      other line keeps its place relative to the others. */
  lemma {:induction false} InsertAfterEnvLineAt(lines: seq<string>, entry: string, k: nat)
    requires k < |lines| && IsEnvLine(lines[k])
    requires forall j | 0 <= j < k :: !IsEnvLine(lines[j])
    ensures InsertAfterFirstEnvLine(lines, entry) == lines[..k + 1] + [entry] + lines[k + 1..]
  {
    if k > 0 {
      var tail := lines[1..];
      assert !IsEnvLine(lines[0]);
      assert forall j | 0 <= j < k - 1 :: tail[j] == lines[j + 1];
      InsertAfterEnvLineAt(tail, entry, k - 1);
      assert InsertAfterFirstEnvLine(lines, entry) == [lines[0]] + InsertAfterFirstEnvLine(tail, entry);
      assert lines[..k + 1] == [lines[0]] + tail[..k];
      assert lines[k + 1..] == tail[k..];
    }
  }

  /** The position of the first `env:` line. */
  lemma {:induction false} FirstEnvLine(lines: seq<string>) returns (k: nat)
    requires HasEnvLine(lines)
    ensures k < |lines| && IsEnvLine(lines[k])
    ensures forall j | 0 <= j < k :: !IsEnvLine(lines[j])
  {
    if IsEnvLine(lines[0]) {
      k := 0;
    } else {
      var w :| 0 <= w < |lines| && IsEnvLine(lines[w]);
      assert lines[1..][w - 1] == lines[w];
      var k1 := FirstEnvLine(lines[1..]);
      k := k1 + 1;
      assert forall j | 1 <= j < k :: lines[j] == lines[1..][j - 1];
    }
  }

  /** Without an `env:` line nothing is inserted. */
  lemma {:induction false} InsertWithoutEnvLine(lines: seq<string>, entry: string)
    requires !HasEnvLine(lines)
    ensures InsertAfterFirstEnvLine(lines, entry) == lines
  {
    if lines != [] {
      assert !IsEnvLine(lines[0]);
      assert forall j | 0 <= j < |lines[1..]| :: lines[1..][j] == lines[j + 1];
      InsertWithoutEnvLine(lines[1..], entry);
    }
  }

  /** A header with an `env:` line always passes the substring guard. */
  lemma EnvLineImpliesMarker(content: string)
    requires HasEnvLine(SplitLines(content))
    ensures Contains(content, Marker)
  {
    var k :| 0 <= k < |SplitLines(content)| && IsEnvLine(SplitLines(content)[k]);
    ContainsStripped(SplitLines(content)[k], Marker);
    ContainsLine(content, k, Marker);
  }

  /** When some line of the header strips to `env:`, the project line is inserted right
      after the first such line and the other lines are unchanged and in order. */
  lemma InjectAfterEnvLine(content: string, project: string, k: nat)
    requires k < |SplitLines(content)| && IsEnvLine(SplitLines(content)[k])
    requires forall j | 0 <= j < k :: !IsEnvLine(SplitLines(content)[j])
    ensures var lines := SplitLines(content);
      InjectedHeader(content, project) == JoinLines(lines[..k + 1] + [ProjectLine(project)] + lines[k + 1..])
  {
    EnvLineImpliesMarker(content);
    InsertAfterEnvLineAt(SplitLines(content), ProjectLine(project), k);
  }

  /** When `env:` occurs nowhere, a new block is put in front and the header follows
      unchanged, whatever the project name. When the name holds no line break, the
      header's lines come after exactly two new lines. */
  lemma InjectPrepends(content: string, project: string)
    requires !Contains(content, Marker)
    ensures var r := InjectedHeader(content, project);
      |content| <= |r| && r[|r| - |content|..] == content
    ensures '\n' !in project ==>
      SplitLines(InjectedHeader(content, project)) == [Marker, ProjectLine(project)] + SplitLines(content)
  {
    var pl := ProjectLine(project);
    var r := InjectedHeader(content, project);
    assert r == Marker + "\n" + pl + "\n" + content;
    if '\n' !in project {
      SplitLinesAfterTwo(Marker, pl, content);
    }
  }

  /** When `env:` occurs only inside some longer line, no project line is added and
      the header comes back as its lines re-joined, losing a final line terminator. */
  lemma InjectSubstringOnly(content: string, project: string)
    requires Contains(content, Marker) && !HasEnvLine(SplitLines(content))
    ensures InjectedHeader(content, project) == JoinLines(SplitLines(content))
    ensures InjectedHeader(content, project) == if content[|content| - 1] == '\n' then content[..|content| - 1] else content
  {
    InsertWithoutEnvLine(SplitLines(content), ProjectLine(project));
    JoinSplitLines(content);
  }

  /** The model of `insert_project_name_env_block`: scan the lines, insert after the
      first `env:` line and stop. */
  method InsertProjectNameEnvBlock(content: string, project: string) returns (r: string)
    ensures r == InjectedHeader(content, project)
  {
    if Contains(content, Marker) {
      var lines := SplitLines(content);
      var i := 0;
      while i < |lines|
        invariant i <= |lines| && lines == SplitLines(content)
        invariant forall j | 0 <= j < i :: !IsEnvLine(lines[j])
      {
        if Strip(lines[i]) == Marker {
          InsertAfterEnvLineAt(lines, ProjectLine(project), i);
          lines := lines[..i + 1] + [ProjectLine(project)] + lines[i + 1..];
          break;
        }
        i := i + 1;
      }
      if i == |lines| {
        InsertWithoutEnvLine(lines, ProjectLine(project));
      }
      r := JoinLines(lines);
    } else {
      r := "env:\n" + ProjectLine(project) + "\n" + content;
    }
  }

  /** `my_env: x` holds `env:` but does not strip to it. */
  lemma MyEnvLine()
    ensures Contains("my_env: x", Marker) && !IsEnvLine("my_env: x")
  {
    var h := "my_env: x";
    assert Marker <= h[3..];
    assert Contains(h[2..], Marker) && Contains(h[1..], Marker);
    assert TrimStart(h) == h;
    TrimEndSpec(h);
    assert h[0] != Marker[0];
  }

  /** A header whose only `env:` is inside `my_env: x` gets no project line. */
  lemma SubstringOnlyExample()
    ensures InjectedHeader("my_env: x", "api") == "my_env: x"
  {
    var h := "my_env: x";
    MyEnvLine();
    SplitWithoutSep(h, '\n');
    assert SplitLines(h) == [h] && !HasEnvLine([h]);
    InjectSubstringOnly(h, "api");
    assert h[|h| - 1] == 'x';
  }

  /** The marker alone is an `env:` line. */
  lemma MarkerIsEnvLine()
    ensures IsEnvLine(Marker)
  {
    assert TrimStart(Marker) == Marker;
    assert TrimEnd(":") == ":";
    assert TrimEnd("v:") == "v:";
    assert TrimEnd("nv:") == "nv:";
    assert Marker == "env:" && Marker[1..] == "nv:";
  }

  /** A header that opens with an `env:` line keeps the entries already in the block,
      below the new entry, and loses only a final line terminator. */
  lemma InjectIntoLeadingEnvBlock(rest: string, project: string)
    requires rest != ""
    ensures InjectedHeader(Marker + "\n" + rest, project)
      == Marker + "\n" + ProjectLine(project) + "\n" + (if rest[|rest| - 1] == '\n' then rest[..|rest| - 1] else rest)
  {
    var content := Marker + "\n" + rest;
    var pl := ProjectLine(project);
    var tail := SplitLines(rest);
    SplitLinesAfterFirst(Marker, rest);
    MarkerIsEnvLine();
    InjectAfterEnvLine(content, project, 0);
    var lines := [Marker, pl] + tail;
    assert SplitLines(content)[..1] + [pl] + SplitLines(content)[1..] == lines;
    var joined := JoinLines(tail);
    JoinSplitLines(rest);
    assert joined == if rest[|rest| - 1] == '\n' then rest[..|rest| - 1] else rest;
    JoinAfterTwo(Marker, pl, tail);
  }

  /** A header that is only the `env:` line comes back without a final line
      terminator: it ends with the project name itself. */
  lemma InjectIntoLoneEnvLine(project: string)
    ensures InjectedHeader(Marker + "\n", project) == Marker + "\n" + ProjectLine(project)
  {
    var content := Marker + "\n";
    assert content[..|content| - 1] == Marker;
    SplitWithoutSep(Marker, '\n');
    assert SplitLines(content) == [Marker];
    MarkerIsEnvLine();
    InjectAfterEnvLine(content, project, 0);
    var lines := [Marker, ProjectLine(project)];
    assert SplitLines(content)[..1] + [ProjectLine(project)] + SplitLines(content)[1..] == lines;
    assert lines[1..] == [ProjectLine(project)];
    assert JoinLines(lines) == Marker + "\n" + JoinLines([ProjectLine(project)]);
  }
}
