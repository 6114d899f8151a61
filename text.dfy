/** Text primitives behind the assembler: Python's `str.split` with a one-character
    separator, `str.join`, `str.splitlines`, `str.strip` and the `in` substring test,
    each stated together with the facts the rest of the model relies on. */
module Text {

  /** Whitespace removed by `str.strip()`. Only the ASCII part of Python's set is
      modelled: space, tab, line feed, carriage return, vertical tab, form feed. */
  predicate IsSpace(c: char) {
    c == ' ' || c == '\t' || c == '\n' || c == '\r' || c == '\U{0B}' || c == '\U{0C}'
  }

  predicate AllSpace(s: string) {
    forall i | 0 <= i < |s| :: IsSpace(s[i])
  }

  /** `s.split(sep)`: the pieces of `s` between occurrences of `sep`, empty pieces kept. */
  function Split(s: string, sep: char): (parts: seq<string>)
    ensures |parts| >= 1
    ensures forall k | 0 <= k < |parts| :: sep !in parts[k]
  {
    if |s| == 0 then [""]
    else
      var rest := Split(s[1..], sep);
      if s[0] == sep then [""] + rest
      else [[s[0]] + rest[0]] + rest[1..]
  }

  /** `sep.join(parts)`. */
  function Join(parts: seq<string>, sep: char): (r: string)
    ensures |parts| >= 1 ==> parts[0] <= r
  {
    if |parts| == 0 then ""
    else if |parts| == 1 then parts[0]
    else parts[0] + [sep] + Join(parts[1..], sep)
  }

  /** Extending the first piece extends the joined text at the front. */
  lemma JoinExtendFirst(c: char, parts: seq<string>, sep: char)
    requires |parts| >= 1
    ensures Join([[c] + parts[0]] + parts[1..], sep) == [c] + Join(parts, sep)
  {
    var q := [[c] + parts[0]] + parts[1..];
    assert q[1..] == parts[1..];
  }

  /** Joining the pieces of a split gives back the original text. */
  lemma {:induction false} JoinSplit(s: string, sep: char)
    ensures Join(Split(s, sep), sep) == s
  {
    if |s| > 0 {
      var rest := Split(s[1..], sep);
      JoinSplit(s[1..], sep);
      if s[0] == sep {
        assert ([""] + rest)[1..] == rest;
      } else {
        JoinExtendFirst(s[0], rest, sep);
      }
      assert s == [s[0]] + s[1..];
    }
  }

  /** Joining separator-free pieces puts exactly one separator between each two
      neighbours and none elsewhere. */
  lemma {:induction false} JoinCount(parts: seq<string>, sep: char)
    requires |parts| >= 1
    requires forall k | 0 <= k < |parts| :: sep !in parts[k]
    ensures multiset(Join(parts, sep))[sep] == |parts| - 1
  {
    if |parts| > 1 {
      JoinCount(parts[1..], sep);
      var rest := Join(parts[1..], sep);
      assert multiset(parts[0] + [sep] + rest) == multiset(parts[0]) + multiset{sep} + multiset(rest);
    }
  }

  /** Splitting text that starts with a separator-free piece and a separator. */
  lemma {:induction false} SplitAfterFirst(x: string, sep: char, y: string)
    requires sep !in x
    ensures Split(x + [sep] + y, sep) == [x] + Split(y, sep)
  {
    var s := x + [sep] + y;
    if |x| == 0 {
      assert s == [sep] + y;
      assert s[1..] == y;
    } else {
      assert s[0] == x[0] && s[1..] == x[1..] + [sep] + y;
      SplitAfterFirst(x[1..], sep, y);
      assert x == [x[0]] + x[1..];
    }
  }

  /** Splitting a join of separator-free pieces gives back the pieces. */
  lemma {:induction false} SplitJoin(parts: seq<string>, sep: char)
    requires |parts| >= 1
    requires forall k | 0 <= k < |parts| :: sep !in parts[k]
    ensures Split(Join(parts, sep), sep) == parts
  {
    if |parts| == 1 {
      SplitWithoutSep(parts[0], sep);
    } else {
      SplitJoin(parts[1..], sep);
      SplitAfterFirst(parts[0], sep, Join(parts[1..], sep));
    }
  }

  /** Text without a separator is a single piece. */
  lemma {:induction false} SplitWithoutSep(s: string, sep: char)
    requires sep !in s
    ensures Split(s, sep) == [s]
  {
    if |s| > 0 {
      SplitWithoutSep(s[1..], sep);
      assert s == [s[0]] + s[1..];
    }
  }

  /** A split has one piece more than the text has separators. */
  lemma {:induction false} SplitCount(s: string, sep: char)
    ensures |Split(s, sep)| == multiset(s)[sep] + 1
  {
    if |s| > 0 {
      SplitCount(s[1..], sep);
      assert s == [s[0]] + s[1..];
      assert multiset(s) == multiset{s[0]} + multiset(s[1..]);
    }
  }

  /** `s.splitlines()` with `'\n'` as the only line boundary: no lines for empty text,
      and a final line terminator does not open an empty last line. */
  function SplitLines(s: string): (lines: seq<string>)
    ensures forall k | 0 <= k < |lines| :: '\n' !in lines[k]
  {
    if |s| == 0 then []
    else if s[|s| - 1] == '\n' then Split(s[..|s| - 1], '\n')
    else Split(s, '\n')
  }

  /** `"\n".join(lines)`. */
  function JoinLines(lines: seq<string>): (r: string)
    ensures |lines| >= 1 ==> lines[0] <= r
  {
    Join(lines, '\n')
  }

  /** Re-joining the lines of a text gives the text back except for one final line
      terminator, which is lost. */
  lemma JoinSplitLines(s: string)
    ensures JoinLines(SplitLines(s)) == if |s| > 0 && s[|s| - 1] == '\n' then s[..|s| - 1] else s
  {
    if |s| > 0 {
      if s[|s| - 1] == '\n' {
        JoinSplit(s[..|s| - 1], '\n');
      } else {
        JoinSplit(s, '\n');
      }
    }
  }

  /** `s.lstrip()`. */
  function TrimStart(s: string): (r: string)
    ensures |r| <= |s| && (r == [] || !IsSpace(r[0]))
  {
    if |s| > 0 && IsSpace(s[0]) then TrimStart(s[1..]) else s
  }

  /** `s.rstrip()`. */
  function TrimEnd(s: string): (r: string)
    ensures |r| <= |s| && (r == [] || !IsSpace(r[|r| - 1]))
  {
    if |s| == 0 then s
    else
      var r := TrimEnd(s[1..]);
      if r == [] && IsSpace(s[0]) then [] else [s[0]] + r
  }

  /** `s.strip()`. */
  function Strip(s: string): (r: string)
    ensures |r| <= |s| && (r == [] || (!IsSpace(r[0]) && !IsSpace(r[|r| - 1])))
  {
    var t := TrimStart(s);
    TrimEndSpec(t);
    TrimEnd(t)
  }

  /** `s.lstrip()` takes a run of whitespace off the front of `s` and nothing else:
      the result is a suffix of `s` that is empty or starts with a non-space. */
  lemma {:induction false} TrimStartSpec(s: string)
    ensures var r := TrimStart(s);
      && |r| <= |s| && r == s[|s| - |r|..] && AllSpace(s[..|s| - |r|])
      && (r == [] || !IsSpace(r[0]))
  {
    if |s| > 0 && IsSpace(s[0]) {
      var t := s[1..];
      TrimStartSpec(t);
      var r := TrimStart(t);
      var n := |t| - |r|;
      assert s[|s| - |r|..] == t[n..];
      assert s[..n + 1] == [s[0]] + t[..n];
    }
  }

  /** `s.rstrip()` takes a run of whitespace off the back of `s` and nothing else:
      the result is a prefix of `s` that is empty or ends with a non-space. */
  lemma {:induction false} TrimEndSpec(s: string)
    ensures var r := TrimEnd(s);
      && r <= s && AllSpace(s[|r|..])
      && (r == [] || !IsSpace(r[|r| - 1]))
  {
    if |s| > 0 {
      var t := s[1..];
      TrimEndSpec(t);
      var r := TrimEnd(t);
      assert s == [s[0]] + t;
      if r == [] && IsSpace(s[0]) {
        assert TrimEnd(s) == [];
        assert t[|r|..] == t;
      } else {
        assert TrimEnd(s) == [s[0]] + r;
        assert s[|r| + 1..] == t[|r|..];
      }
    }
  }

  /** Python's `t in s` on strings: `t` occurs in `s` as a contiguous substring. */
  predicate Contains(s: string, t: string)
    ensures Contains(s, t) ==> |t| <= |s|
    decreases |s|
  {
    t <= s || (|s| > 0 && Contains(s[1..], t))
  }

  /** A substring of `x` is a substring of `x` followed by anything. */
  lemma {:induction false} ContainsAppend(x: string, t: string, b: string)
    requires Contains(x, t)
    ensures Contains(x + b, t)
    decreases |x|
  {
    if !(t <= x) {
      ContainsAppend(x[1..], t, b);
      assert (x + b)[1..] == x[1..] + b;
    }
  }

  /** Dropping a last character that `t` does not hold keeps `t` a substring. */
  lemma {:induction false} ContainsDropLast(s: string, t: string)
    requires |s| > 0 && Contains(s, t) && s[|s| - 1] !in t
    ensures Contains(s[..|s| - 1], t)
    decreases |s|
  {
    var init := s[..|s| - 1];
    if t <= s {
      assert |t| == 0 || t[|t| - 1] in t;
      assert t <= init;
    } else {
      ContainsDropLast(s[1..], t);
      assert init[1..] == s[1..][..|s| - 2];
    }
  }

  /** A substring of `x` is a substring of anything followed by `x`. */
  lemma {:induction false} ContainsPrepend(a: string, x: string, t: string)
    requires Contains(x, t)
    ensures Contains(a + x, t)
    decreases |a|
  {
    if |a| > 0 {
      ContainsPrepend(a[1..], x, t);
      assert (a + x)[1..] == a[1..] + x;
    } else {
      assert a + x == x;
    }
  }

  /** Text that holds one of its pieces' substrings once joined contains it. */
  lemma {:induction false} ContainsJoin(parts: seq<string>, sep: char, k: nat, t: string)
    requires k < |parts| && Contains(parts[k], t)
    ensures Contains(Join(parts, sep), t)
  {
    if |parts| > 1 {
      if k == 0 {
        ContainsAppend(parts[0], t, [sep] + Join(parts[1..], sep));
        assert parts[0] + [sep] + Join(parts[1..], sep) == parts[0] + ([sep] + Join(parts[1..], sep));
      } else {
        ContainsJoin(parts[1..], sep, k - 1, t);
        ContainsPrepend(parts[0] + [sep], Join(parts[1..], sep), t);
      }
    }
  }

  /** Every line of a text is contained in the text. */
  lemma ContainsLine(s: string, k: nat, t: string)
    requires k < |SplitLines(s)| && Contains(SplitLines(s)[k], t)
    ensures Contains(s, t)
  {
    ContainsJoin(SplitLines(s), '\n', k, t);
    JoinSplitLines(s);
    if |s| > 0 && s[|s| - 1] == '\n' {
      ContainsAppend(s[..|s| - 1], t, "\n");
      assert s == s[..|s| - 1] + "\n";
    }
  }

  /** A line that strips to `t` contains `t`. */
  lemma ContainsStripped(line: string, t: string)
    requires Strip(line) == t
    ensures Contains(line, t)
  {
    var rest := TrimStart(line);
    TrimStartSpec(line);
    TrimEndSpec(rest);
    assert t <= rest;
    ContainsPrepend(line[..|line| - |rest|], rest, t);
    assert line == line[..|line| - |rest|] + rest;
  }

  /** Splitting text that starts with a line without terminator and a terminator. */
  lemma SplitLinesAfterFirst(x: string, y: string)
    requires '\n' !in x
    ensures SplitLines(x + "\n" + y) == [x] + SplitLines(y)
  {
    var s := x + "\n" + y;
    if |y| == 0 {
      assert s[..|s| - 1] == x;
      SplitWithoutSep(x, '\n');
    } else if y[|y| - 1] == '\n' {
      assert s[..|s| - 1] == x + "\n" + y[..|y| - 1];
      SplitAfterFirst(x, '\n', y[..|y| - 1]);
    } else {
      SplitAfterFirst(x, '\n', y);
    }
  }

  /** Text that starts with two lines without terminators. */
  lemma SplitLinesAfterTwo(x: string, y: string, z: string)
    requires '\n' !in x && '\n' !in y
    ensures SplitLines(x + "\n" + y + "\n" + z) == [x, y] + SplitLines(z)
  {
    var w := y + "\n" + z;
    var s := x + "\n" + w;
    assert s == x + "\n" + y + "\n" + z;
    SplitLinesAfterFirst(x, w);
    SplitLinesAfterFirst(y, z);
  }

  /** Joining lines that start with two given lines. */
  lemma JoinAfterTwo(x: string, y: string, tail: seq<string>)
    requires tail != []
    ensures JoinLines([x, y] + tail) == x + "\n" + y + "\n" + JoinLines(tail)
  {
    var rest := [y] + tail;
    assert ([x, y] + tail)[0] == x && ([x, y] + tail)[1..] == rest;
    assert rest[0] == y && rest[1..] == tail;
    assert JoinLines([x, y] + tail) == x + "\n" + JoinLines(rest);
    assert JoinLines(rest) == y + "\n" + JoinLines(tail);
  }
}
