/** Splitting the persisted store into lines, as split_content_lines does:
    every '\n' ends a line, nothing else is special (a '\r' stays in the line),
    and the piece after the last '\n' is a line of its own, possibly empty. */
module LineSplit {

  /** The content cut at every '\n'. There is always at least one line
      (the empty store is the single empty line) and no line holds a '\n'. */
  function SplitLines(s: string): (lines: seq<string>)
    ensures |lines| >= 1
    ensures forall i :: 0 <= i < |lines| ==> '\n' !in lines[i]
    decreases |s|
  {
    if s == [] then [""]
    else
      var rest := SplitLines(s[1..]);
      if s[0] == '\n' then [""] + rest
      else [[s[0]] + rest[0]] + rest[1..]
  }

  /** The lines put back together with one '\n' between neighbours. */
  function JoinLines(lines: seq<string>): string
    requires |lines| >= 1
    decreases |lines|
  {
    if |lines| == 1 then lines[0] else lines[0] + "\n" + JoinLines(lines[1..])
  }

  /** Content as written by this tool: empty, or ending in a line terminator. */
  predicate Terminated(s: string)
  {
    s == [] || s[|s| - 1] == '\n'
  }

  function Init(lines: seq<string>): seq<string>
    requires |lines| >= 1
  {
    lines[..|lines| - 1]
  }

  function Last(lines: seq<string>): string
    requires |lines| >= 1
  {
    lines[|lines| - 1]
  }

  lemma {:induction false} JoinPrepend(p: string, lines: seq<string>)
    requires |lines| >= 1
    ensures JoinLines([p + lines[0]] + lines[1..]) == p + JoinLines(lines)
  {
    var m := [p + lines[0]] + lines[1..];
    if |lines| > 1 {
      assert m[1..] == lines[1..];
    }
  }

  /** Joining the split lines gives back the content: the split loses nothing. */
  lemma {:induction false} JoinSplit(s: string)
    ensures JoinLines(SplitLines(s)) == s
    decreases |s|
  {
    if s != [] {
      JoinSplit(s[1..]);
      var rest := SplitLines(s[1..]);
      if s[0] == '\n' {
        assert ([""] + rest)[1..] == rest;
        assert s == "\n" + s[1..];
      } else {
        JoinPrepend([s[0]], rest);
        assert s == [s[0]] + s[1..];
      }
    }
  }

  /** A text without '\n' is one line. */
  lemma {:induction false} SplitSingle(w: string)
    requires '\n' !in w
    ensures SplitLines(w) == [w]
    decreases |w|
  {
    if w != [] {
      SplitSingle(w[1..]);
      assert w == [w[0]] + w[1..];
    }
  }

  /** Sequence algebra for one step of SplitAtNewline. */
  lemma ConsLines(c: char, at: seq<string>, bs: seq<string>)
    requires |at| >= 1
    ensures [""] + (at + bs) == ([""] + at) + bs
    ensures [[c] + (at + bs)[0]] + (at + bs)[1..] == ([[c] + at[0]] + at[1..]) + bs
  {
    assert (at + bs)[0] == at[0];
    assert (at + bs)[1..] == at[1..] + bs;
  }

  /** Splitting distributes over a '\n': the lines of `a + "\n" + b` are the
      lines of `a` followed by the lines of `b`. */
  lemma {:induction false} SplitAtNewline(a: string, b: string)
    ensures SplitLines(a + "\n" + b) == SplitLines(a) + SplitLines(b)
    decreases |a|
  {
    var x := a + "\n" + b;
    if a == [] {
      assert x[0] == '\n' && x[1..] == b;
    } else {
      assert x[0] == a[0] && x[1..] == a[1..] + "\n" + b;
      SplitAtNewline(a[1..], b);
      ConsLines(a[0], SplitLines(a[1..]), SplitLines(b));
    }
  }

  /** Splitting the joined lines gives back the lines, when none holds a '\n'. */
  lemma {:induction false} SplitJoin(lines: seq<string>)
    requires |lines| >= 1
    requires forall i :: 0 <= i < |lines| ==> '\n' !in lines[i]
    ensures SplitLines(JoinLines(lines)) == lines
    decreases |lines|
  {
    SplitSingle(lines[0]);
    if |lines| > 1 {
      SplitJoin(lines[1..]);
      SplitAtNewline(lines[0], JoinLines(lines[1..]));
      assert lines == [lines[0]] + lines[1..];
    }
  }

  /** A terminated content splits with an empty last line. */
  lemma TerminatedLastEmpty(s: string)
    requires Terminated(s)
    ensures Last(SplitLines(s)) == ""
  {
    if s != [] {
      var s0 := s[..|s| - 1];
      assert s == s0 + "\n" + "";
      SplitAtNewline(s0, "");
      var l0 := SplitLines(s0);
      assert SplitLines(s) == l0 + [""];
    }
  }

  /** Appending one '\n'-free line and its terminator to a terminated content
      replaces the empty last line by that line and a new empty last line. */
  lemma AppendLine(s: string, line: string)
    requires Terminated(s)
    requires '\n' !in line
    ensures SplitLines(s + line + "\n") == Init(SplitLines(s)) + [line, ""]
  {
    SplitSingle(line);
    if s == [] {
      assert s + line + "\n" == line + "\n" + "";
      SplitAtNewline(line, "");
    } else {
      var s0 := s[..|s| - 1];
      assert s == s0 + "\n" + "";
      SplitAtNewline(s0, "");
      assert s + line + "\n" == s0 + "\n" + (line + "\n" + "");
      SplitAtNewline(s0, line + "\n" + "");
      SplitAtNewline(line, "");
    }
  }

  /** Appending '\n'-free text extends the last line. */
  lemma {:induction false} AppendToLastLine(s: string, t: string)
    requires '\n' !in t
    ensures SplitLines(s + t) == Init(SplitLines(s)) + [Last(SplitLines(s)) + t]
    decreases |s|
  {
    if s == [] {
      SplitSingle(t);
      assert s + t == t;
    } else {
      var x := s + t;
      assert x[0] == s[0];
      assert x[1..] == s[1..] + t;
      AppendToLastLine(s[1..], t);
      var r := SplitLines(x[1..]);
      var a' := SplitLines(s[1..]);
      assert r == Init(a') + [Last(a') + t];
      if s[0] != '\n' {
        if |a'| == 1 {
          assert r == [a'[0] + t];
          assert SplitLines(s) == [[s[0]] + a'[0]];
          assert [s[0]] + (a'[0] + t) == ([s[0]] + a'[0]) + t;
        } else {
          assert r[0] == a'[0];
          assert r[1..] == Init(a')[1..] + [Last(a') + t];
          assert Init([[s[0]] + a'[0]] + a'[1..]) == [[s[0]] + a'[0]] + Init(a')[1..];
        }
      }
    }
  }

  /** Without its terminator a content merges the next appended line into its
      last line: appending `line + "\n"` to content not ending in '\n' gives a
      last record that is the old last line and `line` run together. */
  lemma AppendLineUnterminated(s: string, line: string)
    requires !Terminated(s)
    requires '\n' !in line
    ensures SplitLines(s + line + "\n") == Init(SplitLines(s)) + [Last(SplitLines(s)) + line, ""]
  {
    AppendToLastLine(s, line);
    assert s + line + "\n" == (s + line) + "\n" + "";
    SplitAtNewline(s + line, "");
  }
}
