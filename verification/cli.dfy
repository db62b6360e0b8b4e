/** Reading the command line into an action and its parameters, as
    Config::get_config_enum and Config::get_params do. `args` is the whole
    argument vector, program name first. */
module Cli {

  datatype Action = GetAction | AddAction | ListAction | DeleteAction | InvalidAction

  datatype AddParams = AddParams(name: string, username: string, password: string)

  datatype Params =
    | List
    | Get(name: string)
    | Add(add: AddParams)
    | Delete(name: string)
    | Invalid

  /** The result of get_params. `UsageError` is the usage message followed by
      process::exit(1); `Panic` is the out-of-range slice `&args[2..]` on an
      argument vector shorter than two. */
  datatype Parsed = Ok(params: Params) | UsageError(action: Action, count: nat) | Panic

  /** The word that selects each valid action. */
  function Word(a: Action): string
    requires a != InvalidAction
  {
    match a
    case GetAction => "get"
    case AddAction => "add"
    case ListAction => "list"
    case DeleteAction => "delete"
  }

  /** The action named by the first argument after the program name: a
      valid action only when that argument exists and is the action's word,
      Invalid exactly when it is missing or no action's word. */
  function GetConfigEnum(args: seq<string>): (a: Action)
    ensures a != InvalidAction ==> |args| > 1 && args[1] == Word(a)
    ensures a == InvalidAction <==> |args| <= 1 || args[1] !in {"get", "add", "list", "delete"}
  {
    if |args| <= 1 then InvalidAction
    else if args[1] == "get" then GetAction
    else if args[1] == "add" then AddAction
    else if args[1] == "list" then ListAction
    else if args[1] == "delete" then DeleteAction
    else InvalidAction
  }

  /** The number of parameters an action accepts after its word. */
  predicate AcceptsCount(a: Action, count: nat)
  {
    match a
    case GetAction => count == 1
    case DeleteAction => count == 1
    case AddAction => count == 2 || count == 3
    case ListAction => true
    case InvalidAction => true
  }

  /** get_params: a panic exactly for fewer than two arguments, a usage
      error (exit status 1) exactly when the action takes a different number
      of parameters, and parameters otherwise: Invalid for an unknown word,
      List whatever follows `list`, and the one parameter of get or delete
      as the name (add is described by GetParamsAdd). */
  function GetParams(args: seq<string>): (r: Parsed)
    ensures r.Panic? <==> |args| < 2
    ensures r.UsageError? <==> |args| >= 2 && !AcceptsCount(GetConfigEnum(args), |args| - 2)
    ensures r.UsageError? ==> r.action == GetConfigEnum(args) && r.count == |args| - 2
    ensures r.Ok? <==> |args| >= 2 && AcceptsCount(GetConfigEnum(args), |args| - 2)
    ensures |args| >= 2 && GetConfigEnum(args) == InvalidAction ==> r == Ok(Invalid)
    ensures GetConfigEnum(args) == ListAction ==> r == Ok(List)
    ensures r.Ok? && GetConfigEnum(args) == GetAction ==> r == Ok(Get(args[2]))
    ensures r.Ok? && GetConfigEnum(args) == DeleteAction ==> r == Ok(Delete(args[2]))
  {
    var action := GetConfigEnum(args);
    if |args| < 2 then Panic
    else
      var params := args[2..];
      match action
      case ListAction => Ok(List)
      case GetAction =>
        if |params| == 1 then Ok(Get(params[0])) else UsageError(GetAction, |params|)
      case AddAction =>
        if |params| == 2 then Ok(Add(AddParams(params[0], "", params[1])))
        else if |params| == 3 then Ok(Add(AddParams(params[0], params[1], params[2])))
        else UsageError(AddAction, |params|)
      case DeleteAction =>
        if |params| == 1 then Ok(Delete(params[0])) else UsageError(DeleteAction, |params|)
      case InvalidAction => Ok(Invalid)
  }

  /** An argument vector that asks for `p`, with `program` as the program
      name: the shortest form, so an add without a username takes two
      parameters. */
  function CommandLine(program: string, p: Params): seq<string>
  {
    match p
    case List => [program, "list"]
    case Get(name) => [program, "get", name]
    case Add(a) =>
      if a.username == "" then [program, "add", a.name, a.password]
      else [program, "add", a.name, a.username, a.password]
    case Delete(name) => [program, "delete", name]
    case Invalid => [program, "help"]
  }

  /** Every request can be written on the command line: get_params reads
      back from CommandLine exactly the parameters it was built from. */
  lemma GetParamsCommandLine(program: string, p: Params)
    ensures GetParams(CommandLine(program, p)) == Ok(p)
  {
    var args := CommandLine(program, p);
    match p
    case List =>
    case Get(name) =>
      assert args[2..] == [name];
    case Add(a) =>
      if a.username == "" {
        assert args[2..] == [a.name, a.password];
      } else {
        assert args[2..] == [a.name, a.username, a.password];
      }
    case Delete(name) =>
      assert args[2..] == [name];
    case Invalid =>
  }

  /** add with two parameters stores an empty username; with three, the
      parameters in order name, username, password. */
  lemma GetParamsAdd(program: string, x: string, y: string, z: string)
    ensures GetParams([program, "add", x, y]) == Ok(Add(AddParams(x, "", y)))
    ensures GetParams([program, "add", x, y, z]) == Ok(Add(AddParams(x, y, z)))
    ensures GetParams([program, "add", x]).UsageError?
    ensures GetParams([program, "add", x, y, z, z]).UsageError?
  {
    assert [program, "add", x, y][2..] == [x, y];
    assert [program, "add", x, y, z][2..] == [x, y, z];
    assert [program, "add", x][2..] == [x];
    assert [program, "add", x, y, z, z][2..] == [x, y, z, z];
  }
}
