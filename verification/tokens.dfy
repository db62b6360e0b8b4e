/** Splitting a line into tokens the way Rust's str::split_ascii_whitespace
    does: runs of ASCII whitespace separate tokens, leading and trailing runs
    are ignored, and no token is ever empty. */
module AsciiWhitespace {

  /** The characters u8::is_ascii_whitespace accepts: space, horizontal tab,
      line feed, form feed and carriage return. Vertical tab is not one of them. */
  predicate IsAsciiWhitespace(c: char)
  {
    c == ' ' || c == '\t' || c == '\n' || c == '\U{0C}' || c == '\r'
  }

  predicate NoWhitespace(s: string)
  {
    forall i :: 0 <= i < |s| ==> !IsAsciiWhitespace(s[i])
  }

  predicate AllWhitespace(s: string)
  {
    forall i :: 0 <= i < |s| ==> IsAsciiWhitespace(s[i])
  }

  /** A token: non-empty and free of whitespace. */
  predicate IsWord(s: string)
  {
    s != [] && NoWhitespace(s)
  }

  /** Length of the longest whitespace-free prefix of `s`. */
  function WordLength(s: string): (n: nat)
    ensures n <= |s|
    ensures NoWhitespace(s[..n])
    ensures n < |s| ==> IsAsciiWhitespace(s[n])
    decreases |s|
  {
    if s == [] || IsAsciiWhitespace(s[0]) then 0
    else
      var m := WordLength(s[1..]);
      1 + m
  }

  /** The tokens of `s`, in order. */
  function SplitAsciiWhitespace(s: string): (tokens: seq<string>)
    ensures forall i :: 0 <= i < |tokens| ==> IsWord(tokens[i])
    decreases |s|
  {
    if s == [] then []
    else if IsAsciiWhitespace(s[0]) then SplitAsciiWhitespace(s[1..])
    else
      var n := WordLength(s);
      [s[..n]] + SplitAsciiWhitespace(s[n..])
  }

  /** The tokens separated by single spaces. */
  function JoinWithSpaces(words: seq<string>): string
    decreases |words|
  {
    if words == [] then ""
    else if |words| == 1 then words[0]
    else words[0] + " " + JoinWithSpaces(words[1..])
  }

  lemma {:induction false} WordLengthOfWord(w: string, rest: string)
    requires NoWhitespace(w)
    requires rest == [] || IsAsciiWhitespace(rest[0])
    ensures WordLength(w + rest) == |w|
    decreases |w|
  {
    if w != [] {
      assert (w + rest)[0] == w[0];
      assert (w + rest)[1..] == w[1..] + rest;
      WordLengthOfWord(w[1..], rest);
    } else {
      assert w + rest == rest;
    }
  }

  /** A token followed by whitespace (or by nothing) is split off whole. */
  lemma SplitWordThen(w: string, rest: string)
    requires IsWord(w)
    requires rest == [] || IsAsciiWhitespace(rest[0])
    ensures SplitAsciiWhitespace(w + rest) == [w] + SplitAsciiWhitespace(rest)
  {
    WordLengthOfWord(w, rest);
    var s := w + rest;
    assert s[0] == w[0];
    assert s[..|w|] == w && s[|w|..] == rest;
  }

  /** A single token splits into itself. */
  lemma SplitWord(w: string)
    requires IsWord(w)
    ensures SplitAsciiWhitespace(w) == [w]
  {
    SplitWordThen(w, []);
    assert w + [] == w;
  }

  /** Leading whitespace, however long the run, produces no token. */
  lemma {:induction false} SplitSkipsWhitespace(ws: string, rest: string)
    requires AllWhitespace(ws)
    ensures SplitAsciiWhitespace(ws + rest) == SplitAsciiWhitespace(rest)
    decreases |ws|
  {
    if ws == [] {
      assert ws + rest == rest;
    } else {
      assert (ws + rest)[0] == ws[0];
      assert (ws + rest)[1..] == ws[1..] + rest;
      SplitSkipsWhitespace(ws[1..], rest);
    }
  }

  /** A text has no token exactly when it is all whitespace (or empty). */
  lemma {:induction false} SplitEmptyIff(s: string)
    ensures SplitAsciiWhitespace(s) == [] <==> AllWhitespace(s)
    decreases |s|
  {
    if s != [] {
      SplitEmptyIff(s[1..]);
      if IsAsciiWhitespace(s[0]) {
        assert forall i :: 1 <= i < |s| ==> s[i] == s[1..][i - 1];
        assert AllWhitespace(s) <==> AllWhitespace(s[1..]);
      }
    }
  }

  /** Splitting undoes joining with single spaces: tokenising is the inverse
      of writing the tokens out space-separated. */
  lemma {:induction false} SplitJoinWithSpaces(words: seq<string>)
    requires forall i :: 0 <= i < |words| ==> IsWord(words[i])
    ensures SplitAsciiWhitespace(JoinWithSpaces(words)) == words
    decreases |words|
  {
    if |words| == 1 {
      SplitWord(words[0]);
    } else if |words| > 1 {
      var tail := JoinWithSpaces(words[1..]);
      SplitJoinWithSpaces(words[1..]);
      SplitWordThen(words[0], " " + tail);
      SplitSkipsWhitespace(" ", tail);
      assert words[0] + " " + tail == words[0] + (" " + tail);
      assert words == [words[0]] + words[1..];
    }
  }
}
