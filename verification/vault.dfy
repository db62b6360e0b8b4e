/** The credential store: the persisted file becomes the `content` field of a
    Store, read whole by list, get and delete, appended to by add and
    overwritten by delete. */
module Vault {
  import opened AsciiWhitespace
  import opened LineSplit
  import opened RecordCodec
  import opened StoreSpec
  import Cli

  /** What one run of the tool reports, in place of its console output. */
  datatype Outcome =
    | Listed(names: seq<string>)
    | Added(name: string)
    | Retrieved(name: string, reports: seq<Credential>, found: bool)
    | Removed(name: string, found: bool)
    | NotAnAction

  class Store {
    /** The whole text of the store file. */
    var content: string

    constructor (initial: string)
      ensures content == initial
    {
      content := initial;
    }

    /** list_credentials: the first token of every line that has one, in
        file order. */
    method List() returns (names: seq<string>)
      ensures names == ListNames(SplitLines(content))
    {
      var lines := SplitLines(content);
      if |lines| == 0 {
        // "No credentials found.": SplitLines never returns an empty sequence
        assert false;
      }
      names := [];
      var i := 0;
      while i < |lines|
        invariant 0 <= i <= |lines|
        invariant names == ListNames(lines[..i])
      {
        var data := SplitAsciiWhitespace(lines[i]);
        if |data| >= 1 {
          names := names + [data[0]];
        }
        assert Init(lines[..i + 1]) == lines[..i];
        i := i + 1;
      }
      assert lines[..|lines|] == lines;
    }

    /** get_credential: every credential stored under `name`, in file order,
        and whether there was one (its not-found message is printed when
        there was none). */
    method Get(name: string) returns (reports: seq<Credential>, found: bool)
      ensures reports == GetMatches(SplitLines(content), name)
      ensures found <==> AnyRecordOf(SplitLines(content), name)
    {
      var lines := SplitLines(content);
      reports := [];
      found := false;
      var i := 0;
      while i < |lines|
        invariant 0 <= i <= |lines|
        invariant (reports, found) == GetScan(lines[..i], name)
      {
        var data := SplitAsciiWhitespace(lines[i]);
        if |data| > 1 {
          var credentialName := data[0];
          if credentialName == name {
            var username, password;
            if |data| == 2 {
              password := data[1];
              username := NoUsername;
            } else {
              username := data[1];
              password := data[2];
            }
            found := true;
            reports := reports + [Credential(credentialName, username, password)];
          }
        }
        assert Init(lines[..i + 1]) == lines[..i] && Last(lines[..i + 1]) == lines[i];
        i := i + 1;
      }
      assert lines[..|lines|] == lines;
      GetScanIs(lines, name);
    }

    /** add_credential: append the encoded record and its line terminator;
        the store is not read first, so duplicates are never detected. */
    method Add(name: string, username: string, password: string)
      modifies this
      ensures content == old(content) + Encode(name, username, password) + "\n"
    {
      content := content + Encode(name, username, password) + "\n";
    }

    /** delete_credential: keep every non-empty line whose first token is
        not `name`, each with its own '\n', overwrite the store with them,
        and report whether any line was dropped for having `name` first. */
    method Delete(name: string) returns (found: bool)
      modifies this
      ensures content == Deleted(old(content), name)
      ensures found <==> AnyLineNamed(SplitLines(old(content)), name)
    {
      var lines := SplitLines(content);
      var updated := "";
      found := false;
      var i := 0;
      while i < |lines|
        invariant 0 <= i <= |lines|
        invariant (updated, found) == DeleteScan(lines[..i], name)
      {
        var line := lines[i];
        assert Init(lines[..i + 1]) == lines[..i];
        if |line| == 0 {
          i := i + 1;
          continue;
        }
        var data := SplitAsciiWhitespace(line);
        if |data| < 1 || data[0] != name {
          updated := updated + line + "\n";
        } else {
          found := true;
        }
        i := i + 1;
      }
      assert lines[..|lines|] == lines;
      DeleteScanIs(lines, name);
      content := updated;
    }

    /** run: dispatch the parsed request to the store operation it names. */
    method Run(p: Cli.Params) returns (out: Outcome)
      modifies this
      ensures p.List? ==> out == Listed(ListNames(SplitLines(content)))
      ensures p.Get? ==> out == Retrieved(p.name, GetMatches(SplitLines(content), p.name),
                                          AnyRecordOf(SplitLines(content), p.name))
      ensures p.Add? ==> out == Added(p.add.name)
      ensures p.Add? ==> content == old(content) + Encode(p.add.name, p.add.username, p.add.password) + "\n"
      ensures p.Delete? ==> content == Deleted(old(content), p.name)
      ensures p.Delete? ==> out == Removed(p.name, AnyLineNamed(SplitLines(old(content)), p.name))
      ensures p.Invalid? ==> out == NotAnAction
      ensures !p.Add? && !p.Delete? ==> content == old(content)
    {
      match p
      case List =>
        var names := List();
        out := Listed(names);
      case Get(name) =>
        var reports, found := Get(name);
        out := Retrieved(name, reports, found);
      case Add(a) =>
        Add(a.name, a.username, a.password);
        out := Added(a.name);
      case Delete(name) =>
        var found := Delete(name);
        out := Removed(name, found);
      case Invalid =>
        out := NotAnAction;
    }
  }
}
