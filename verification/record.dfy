/** One credential as one line of the store: how add_credential writes it and
    how get_credential reads it back. */
module RecordCodec {
  import opened AsciiWhitespace

  datatype Option<+T> = None | Some(value: T)

  /** A credential as get_credential reports it. */
  datatype Credential = Credential(name: string, username: string, password: string)

  /** The username get_credential reports for a line with only two tokens. */
  const NoUsername: string := "None"

  /** The line add_credential formats, without the '\n' the append adds. */
  function Encode(name: string, username: string, password: string): (line: string)
    ensures |line| == |name| + |username| + |password| + 2
    ensures forall c :: c in line <==> c == ' ' || c in name || c in username || c in password
  {
    name + " " + username + " " + password
  }

  /** How get_credential reads one line: fewer than two tokens is no
      credential, two tokens are a name and a password, three or more are a
      name, a username and a password and the rest is dropped. Every field
      it reports is a non-empty, whitespace-free token. */
  function Decode(line: string): (r: Option<Credential>)
    ensures r.Some? ==> IsWord(r.value.name) && IsWord(r.value.username) && IsWord(r.value.password)
  {
    var data := SplitAsciiWhitespace(line);
    if |data| <= 1 then None
    else if |data| == 2 then Some(Credential(data[0], NoUsername, data[1]))
    else Some(Credential(data[0], data[1], data[2]))
  }

  /** The line's first token is `name`: the test list and delete apply. */
  predicate FirstTokenIs(line: string, name: string)
  {
    var data := SplitAsciiWhitespace(line);
    |data| >= 1 && data[0] == name
  }

  /** The line is a credential named `name`: the test get applies. */
  predicate IsRecordOf(line: string, name: string)
  {
    var data := SplitAsciiWhitespace(line);
    |data| > 1 && data[0] == name
  }

  /** get reports a line under `name` exactly when Decode yields a
      credential with that name; such a line also passes delete's test. */
  lemma DecodeMatches(line: string, name: string)
    ensures IsRecordOf(line, name) <==> Decode(line).Some? && Decode(line).value.name == name
    ensures IsRecordOf(line, name) ==> FirstTokenIs(line, name)
  {
  }

  /** The tokens of an encoded line: with an empty username the two spaces
      collapse into one separator, so only two tokens remain. */
  lemma EncodeTokens(name: string, username: string, password: string)
    requires IsWord(name) && IsWord(password) && NoWhitespace(username)
    ensures SplitAsciiWhitespace(Encode(name, username, password))
         == if username == [] then [name, password] else [name, username, password]
  {
    var line := Encode(name, username, password);
    var tail := " " + password;
    assert SplitAsciiWhitespace(tail) == [password] by {
      SpaceThenWord(password, []);
      assert password + [] == password;
      assert SplitAsciiWhitespace([]) == [];
    }
    if username == [] {
      assert line == name + (" " + tail);
      SplitWordThen(name, " " + tail);
      SplitSkipsWhitespace(" ", tail);
    } else {
      assert line == name + (" " + (username + tail));
      SplitWordThen(name, " " + (username + tail));
      SpaceThenWord(username, tail);
    }
  }

  /** A space, a token and what follows it from a separator on. */
  lemma SpaceThenWord(w: string, rest: string)
    requires IsWord(w)
    requires rest == [] || IsAsciiWhitespace(rest[0])
    ensures SplitAsciiWhitespace(" " + (w + rest)) == [w] + SplitAsciiWhitespace(rest)
  {
    SplitSkipsWhitespace(" ", w + rest);
    SplitWordThen(w, rest);
  }

  /** Decoding an encoded credential gives it back, except that an empty
      username comes back as "None". */
  lemma DecodeEncode(name: string, username: string, password: string)
    requires IsWord(name) && IsWord(password) && NoWhitespace(username)
    ensures Decode(Encode(name, username, password))
         == Some(Credential(name, if username == [] then NoUsername else username, password))
    ensures IsRecordOf(Encode(name, username, password), name)
  {
    EncodeTokens(name, username, password);
  }

  /** add does not reject a name containing a space: `add "a b" p` stores
      "a b  p", which decodes as name `a`, username `b`, password `p`, and
      which get for "a b" does not report. */
  lemma DecodeEncodeSpacedName(a: string, b: string, password: string)
    requires IsWord(a) && IsWord(b) && IsWord(password)
    ensures Decode(Encode(a + " " + b, "", password)) == Some(Credential(a, b, password))
    ensures !IsRecordOf(Encode(a + " " + b, "", password), a + " " + b)
  {
    var line := Encode(a + " " + b, "", password);
    var tail := " " + password;
    assert SplitAsciiWhitespace(tail) == [password] by {
      SpaceThenWord(password, []);
      assert password + [] == password;
    }
    assert line == a + (" " + (b + (" " + tail)));
    SplitWordThen(a, " " + (b + (" " + tail)));
    SpaceThenWord(b, " " + tail);
    SplitSkipsWhitespace(" ", tail);
    assert SplitAsciiWhitespace(line) == [a, b, password];
  }

  /** With an empty username and an empty password the record is the name
      and two spaces: one token, which list reports and get ignores. */
  lemma DecodeEncodeNameOnly(name: string)
    requires IsWord(name)
    ensures SplitAsciiWhitespace(Encode(name, "", "")) == [name]
    ensures Decode(Encode(name, "", "")) == None
  {
    var line := Encode(name, "", "");
    assert line == name + "  ";
    SplitWordThen(name, "  ");
    SplitSkipsWhitespace("  ", "");
    assert "  " + "" == "  ";
  }

  /** An empty password shifts the fields: the username is read back as the
      password and the username becomes "None". */
  lemma DecodeEncodeEmptyPassword(name: string, username: string)
    requires IsWord(name) && IsWord(username)
    ensures Decode(Encode(name, username, "")) == Some(Credential(name, NoUsername, username))
  {
    var line := Encode(name, username, "");
    assert line == name + (" " + (username + " "));
    SplitWordThen(name, " " + (username + " "));
    SplitSkipsWhitespace(" ", username + " ");
    SplitSkipsWhitespace(" ", "");
    assert " " + "" == " ";
    assert SplitAsciiWhitespace(" ") == [];
    SplitWordThen(username, " ");
    assert SplitAsciiWhitespace(line) == [name, username];
  }
}
