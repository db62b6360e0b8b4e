# vault: a verified model of the credential store

`vault` is a command-line tool that keeps credentials (a name, an optional
username and a password) in one text file, `data.txt`, one credential per
line with the fields separated by spaces. It has four commands: `list`,
`get <name>`, `add <name> [<username>] <password>` and `delete <name>`.
This project models, in Dafny, the engine of `src/main.rs`:

- `LineSplit` (`lines.dfy`): `split_content_lines`. The content is cut at
  every `'\n'`. Proved: the split always has at least one line, joining the
  lines with `'\n'` gives the content back, splitting the joined lines gives
  the lines back, and the split distributes over a `'\n'`.
- `AsciiWhitespace` (`tokens.dfy`): Rust's `split_ascii_whitespace`. The
  whitespace characters are space, tab, line feed, form feed and carriage
  return. Runs of them collapse and no token is empty. Proved: every token is
  a non-empty, whitespace-free word; a text has no token exactly when it is
  all whitespace; splitting undoes joining words with single spaces.
- `RecordCodec` (`record.dfy`): the record `add_credential` formats and the
  way `get_credential` reads a line back.
- `StoreSpec` (`store_spec.dfy`): what list, get and delete compute from the
  lines of the store, and the lemmas relating the four operations.
- `Vault` (`vault.dfy`): a `Store` class whose `content` field is the file.
  `List`, `Get` and `Delete` are loops over the lines, as in the source.
  Each one is proved equal to its `StoreSpec` function. `Add` appends, and
  `Run` dispatches a parsed request.
- `Cli` (`cli.dfy`): `Config::get_config_enum` and `Config::get_params`.

Behaviour the code has that a reader of its intent might not expect. The
model follows the code in each case:

- An `add` with two parameters stores the username as the empty string. The
  line is `name  password`, with two spaces. `split_ascii_whitespace` collapses
  the two spaces, so the line has two tokens, and `get` reports the username as
  `"None"`, not as an empty username (`RecordCodec.DecodeEncode`).
- For a non-empty, whitespace-free name and username, an `add` with an empty
  password shifts the fields. `get` then reports the username as the password
  and `"None"` as the username (`RecordCodec.DecodeEncodeEmptyPassword`). With
  an empty username as well, the line has one token: `get` ignores it and
  `list` reports the name (`RecordCodec.DecodeEncodeNameOnly`).
- `list` reports one-token lines, but `get` ignores them.
- Nothing checks that a field is free of whitespace. A name with a space is
  read back as two fields: `add "a b" p` stores `a b  p`, and `get` then
  reports name `a`, username `b`, password `p`, so `get "a b"` finds nothing
  (`RecordCodec.DecodeEncodeSpacedName`). The round-trip lemmas about add
  therefore assume a non-empty, whitespace-free name and password and a
  whitespace-free username.
- A `delete` that finds nothing still rewrites the file. It leaves the file
  byte for byte unchanged only when the file is already canonical: it is
  empty, or it ends in `'\n'` and has no empty line before the last
  (`StoreSpec.DeleteNotFoundUnchangedIff`).
  Otherwise empty lines disappear, and a missing final `'\n'` is added.
- `add` does not check that the file ends in `'\n'`. If it does not, the new
  record is joined onto the old last line (`LineSplit.AppendLineUnterminated`).
- The `lines.len() == 0` branch of `list_credentials` ("No credentials
  found.") cannot be reached. Splitting the empty file gives one empty line
  (`LineSplit.SplitLines`, and the dead branch in `Vault.Store.List`).
- A bare invocation with no action word has fewer than two arguments.
  `get_params` then panics on `&args[2..]` before it can return `Invalid`
  (`Cli.GetParams`).

## Model

| member | source | states |
|---|---|---|
| `LineSplit.SplitLines` | src/main.rs:48-51 | the split of any content has at least one line, and no line contains `'\n'` |
| `LineSplit.JoinSplit` | src/main.rs:48-51 | joining the lines of the split with `'\n'` gives the content back: the split loses nothing |
| `LineSplit.SplitJoin` | src/main.rs:48-51 | splitting lines joined with `'\n'` gives those lines back, when no line contains `'\n'` |
| `LineSplit.SplitSingle` | src/main.rs:48-51 | a text without `'\n'` is a single line |
| `LineSplit.SplitAtNewline` | src/main.rs:48-51 | the lines of `a + "\n" + b` are the lines of `a` followed by the lines of `b` |
| `LineSplit.TerminatedLastEmpty` | src/main.rs:48-51 | content that is empty or ends in `'\n'` splits with an empty last line |
| `LineSplit.AppendLine` | src/main.rs:36-46 | appending a line and its `'\n'` (the `writeln!`) to terminated content replaces the empty last line with that line and adds a new empty last line |
| `LineSplit.AppendToLastLine` | src/main.rs:36-46 | appending text without `'\n'` extends the last line |
| `LineSplit.AppendLineUnterminated` | src/main.rs:36-46 | appending a record to content that does not end in `'\n'` joins the record onto the old last line |
| `AsciiWhitespace.SplitAsciiWhitespace` | src/main.rs:90 | every token is non-empty and free of ASCII whitespace |
| `AsciiWhitespace.SplitWordThen` | src/main.rs:90 | a token followed by whitespace, or by nothing, is split off whole |
| `AsciiWhitespace.SplitWord` | src/main.rs:90 | a single whitespace-free, non-empty text is exactly one token |
| `AsciiWhitespace.SplitSkipsWhitespace` | src/main.rs:90 | a run of leading whitespace of any length produces no token |
| `AsciiWhitespace.SplitEmptyIff` | src/main.rs:65 | a line has no token if and only if it is empty or all whitespace |
| `AsciiWhitespace.SplitJoinWithSpaces` | src/main.rs:90 | splitting words joined with single spaces gives back the words |
| `RecordCodec.Decode` | src/main.rs:89-104 | every field get reports is a non-empty, whitespace-free token |
| `RecordCodec.DecodeMatches` | src/main.rs:91-94 | get's test (more than one token, first equal to the name) holds exactly when the line decodes to a credential with that name; such a line also passes delete's first-token test |
| `RecordCodec.Encode` | src/main.rs:78 | the record is the three fields and two separating spaces: its length is theirs plus two, and it holds a character if and only if that character is a space or occurs in a field (so whitespace-free fields give a line without `'\n'`) |
| `RecordCodec.EncodeTokens` | src/main.rs:78 | for a non-empty, whitespace-free name and password and a whitespace-free username, the added record has tokens `[name, username, password]`, or `[name, password]` when the username is empty |
| `RecordCodec.DecodeEncode` | src/main.rs:71-104 | for a non-empty, whitespace-free name and password and a whitespace-free username, decoding the added record gives back name, username and password, except that an empty username comes back as `"None"` |
| `RecordCodec.DecodeEncodeEmptyPassword` | src/main.rs:71-104 | for a non-empty, whitespace-free name and username, a record added with an empty password decodes with the username as the password and `"None"` as the username |
| `RecordCodec.DecodeEncodeNameOnly` | src/main.rs:71-104 | for a non-empty, whitespace-free name, a record added with an empty username and an empty password has the name as its only token, so it does not decode and get never reports it |
| `RecordCodec.DecodeEncodeSpacedName` | src/main.rs:71-104 | a name `a b` added without a username is stored as `a b  p` and read back as name `a`, username `b`, password `p`; get for `a b` does not report that line |
| `StoreSpec.ListNames` | src/main.rs:63-68 | list reports at most one name per line, and each name is a whitespace-free token |
| `StoreSpec.ListNamesConcat` | src/main.rs:64-68 | list keeps file order: the names for `a + b` are the names for `a` followed by the names for `b` |
| `StoreSpec.ListNamesMember` | src/main.rs:63-68 | list reports `x` if and only if some line has `x` as its first token, one-token lines included |
| `StoreSpec.ListNamesSingle` | src/main.rs:64-67 | for one line, list reports its first token, or nothing when the line is whitespace only |
| `StoreSpec.Reported` | src/main.rs:90-110 | a line yields at most one report; it yields one if and only if it has more than one token and the queried name first, and that report is the line's decoding |
| `StoreSpec.GetMatches` | src/main.rs:89-113 | get reports at most one credential per line, and every report carries the queried name |
| `StoreSpec.GetMatchesConcat` | src/main.rs:89-113 | get keeps file order and reports every match: the reports for `a + b` are those for `a` followed by those for `b` |
| `StoreSpec.GetMatchesMember` | src/main.rs:89-113 | get reports `c` if and only if `c` has the queried name and some line decodes to `c` |
| `StoreSpec.GetMatchesEmptyIff` | src/main.rs:87-117 | get reports nothing, and prints its not-found message, if and only if no line has more than one token with the name first |
| `StoreSpec.GetScanIs` | src/main.rs:87-117 | the state of get's loop after reading all lines (the credentials printed and the found flag) is `GetMatches` of the lines and whether some line is a record of the name |
| `StoreSpec.AddThenGet` | src/main.rs:71-117 | after add on terminated content, for a non-empty, whitespace-free name and password and a whitespace-free username, get for that name reports what it reported before, then the new credential (`"None"` for an empty username); duplicates are kept |
| `StoreSpec.AddThenGetOther` | src/main.rs:71-117 | after add on terminated content, for a non-empty, whitespace-free name and password and a whitespace-free username, get for any other name reports exactly what it reported before |
| `StoreSpec.ReportedEncode` | src/main.rs:71-113 | for a non-empty, whitespace-free name and password and a whitespace-free username, get reports the added record, with `"None"` for an empty username, for its own name and for no other |
| `StoreSpec.AddThenList` | src/main.rs:53-80 | after add on terminated content, for a non-empty, whitespace-free name and password and a whitespace-free username, list reports the old names followed by the added name |
| `StoreSpec.AddKeepsCanonical` | src/main.rs:71-80 | for whitespace-free fields, add keeps canonical content canonical (empty, or ending in `'\n'` with no empty line before the last) |
| `StoreSpec.Unlines` | src/main.rs:135-136 | content rebuilt line by line, each line followed by `'\n'`, is terminated |
| `StoreSpec.KeptLines` | src/main.rs:127-140 | delete keeps at most the lines it was given, and every kept line is non-empty and its first token is not the name |
| `StoreSpec.KeptLinesConcat` | src/main.rs:127-140 | delete keeps lines in their original order: filtering `a + b` is filtering `a`, then filtering `b` |
| `StoreSpec.KeptLinesMember` | src/main.rs:127-140 | a line survives delete if and only if it was in the store, is non-empty and its first token is not the name |
| `StoreSpec.KeptLinesIdempotent` | src/main.rs:127-140 | filtering lines that all pass the test leaves them unchanged |
| `StoreSpec.Deleted` | src/main.rs:124-142 | the content delete writes back is empty or ends in `'\n'` (its lines are characterised by `StoreSpec.DeletedLines`) |
| `StoreSpec.DeleteStep` | src/main.rs:127-140 | one more line: it is appended with `'\n'` when kept, otherwise nothing changes; found becomes true exactly when its first token is the name |
| `StoreSpec.DeleteScanIs` | src/main.rs:124-140 | the state of delete's loop after reading all lines is the kept lines, each followed by `'\n'`, and whether some line has the name as its first token |
| `StoreSpec.SplitUnlines` | src/main.rs:124-142 | splitting rebuilt content gives back the kept lines and a final empty line |
| `StoreSpec.DeletedLines` | src/main.rs:120-142 | the store after delete consists of exactly the kept lines, verbatim and in order, then the final empty line |
| `StoreSpec.DeleteRemovesAll` | src/main.rs:127-142 | after delete, no line has the deleted name as its first token; all matches are removed, not just the first |
| `StoreSpec.DeleteThenList` | src/main.rs:53-149 | after delete, list reports `x` if and only if `x` is not the deleted name and list reported `x` before |
| `StoreSpec.KeptLinesNamed` | src/main.rs:127-140 | a line of the rewritten store has first token `x` if and only if `x` is not the deleted name and some original line had first token `x` |
| `StoreSpec.GetMatchesKept` | src/main.rs:89-140 | for any other name, get reports the same from the kept lines as from all the lines |
| `StoreSpec.DeleteThenGet` | src/main.rs:82-149 | after delete, get for the deleted name reports nothing |
| `StoreSpec.DeleteThenGetOther` | src/main.rs:82-149 | after delete, get for every other name reports exactly what it reported before |
| `StoreSpec.DeleteIdempotent` | src/main.rs:120-149 | deleting the same name again leaves the content unchanged, and the second delete finds nothing |
| `StoreSpec.DeletedIsCanonical` | src/main.rs:120-142 | whatever the content, delete leaves it canonical |
| `StoreSpec.DeleteNotFoundUnchangedIff` | src/main.rs:120-149 | when no line has the name as its first token, delete leaves the content byte for byte unchanged if and only if the content was canonical |
| `StoreSpec.CanonicalUnchanged` | src/main.rs:120-149 | canonical content without the name is unchanged by delete |
| `Vault.Store.constructor` | src/main.rs:7-22 | the store starts with the content read from the file |
| `Vault.Store.List` | src/main.rs:53-69 | the loop reports `ListNames` of the lines of the content; the "No credentials found." branch is unreachable |
| `Vault.Store.Get` | src/main.rs:82-118 | the loop reports `GetMatches` of the lines, and `found` holds if and only if some line has more than one token with the name first |
| `Vault.Store.Add` | src/main.rs:71-80 | the new content is the old content with `name username password` and `'\n'` appended, and nothing else changes |
| `Vault.Store.Delete` | src/main.rs:120-149 | the loop overwrites the content with the kept lines, each followed by `'\n'`; `found` holds if and only if some line of the old content has the name as its first token |
| `Vault.Store.Run` | src/main.rs:155-173 | each request runs its operation; only add and delete change the content |
| `Cli.GetConfigEnum` | src/main.rs:222-235 | a valid action is returned only when its word is the first argument; the result is `Invalid` if and only if that argument is missing or is none of get, add, list, delete |
| `Cli.GetParams` | src/main.rs:237-288 | get_params panics if and only if there are fewer than two arguments (`&args[2..]`). It exits with a usage error, carrying the action and the parameter count, if and only if get or delete do not have exactly 1 parameter, or add does not have 2 or 3. Otherwise it returns parameters: `Invalid` for an unknown action word, `List` for `list` whatever follows it, and the single parameter as the name for get and delete |
| `Cli.GetParamsCommandLine` | src/main.rs:237-288 | every request has a command line from which get_params reads back exactly that request |
| `Cli.GetParamsAdd` | src/main.rs:254-274 | add with two parameters gives an empty username, and with three gives name, username and password in order; one or four parameters are usage errors |

## Left out

- File I/O is not modelled. `get_file_contents`, `overwrite_file_contents` and
  `append_to_file` become reads and writes of `Store.content`. The `unwrap`
  panics when the file cannot be opened are not modelled. Neither are the
  read and write errors, which are printed and then ignored.
- A missing `data.txt`: `get_file_contents` creates it (src/main.rs:8-13), so
  `list`, `get` and `delete` see an empty file, but `append_to_file` opens
  without creating (src/main.rs:37-40), so an `add` before any other command,
  the first run of the program, panics. `Store`'s initial content always
  stands for an existing file, and `Store.Add` always succeeds.
  `append_to_file` ignores its `file_path` argument and always opens
  `data.txt`. Every caller passes `data.txt`, so one content field stands for
  the file.
- Console output is not modelled. The `println!` text becomes returned values:
  the names, the reported credentials, and the found flags.
- `main`, `env::args` and `Config::new` are not modelled. `Config::new` only
  stores the results of `get_config_enum` and `get_params`. `process::exit(1)`
  is the `UsageError` result, and the slice panic is the `Panic` result.
- Concurrency is not modelled. Delete's truncate-and-rewrite is not atomic, so
  an update made during it can be lost. The model runs one operation at a time.
- Strings are `seq<char>`, not UTF-8 bytes. Only the five ASCII whitespace
  characters separate tokens. Every other character, ASCII or not, is part of
  a token, so the model agrees with `split_ascii_whitespace` on well-formed
  UTF-8.
