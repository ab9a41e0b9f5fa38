/** The token machine of waf-tools/shellcmd.py: `Pipeline.parse` on a list of tokens.
    A failed Python `assert` is the outcome `AssertionError`. */
module ShellParse {
  import opened Common

  /** Where an output stream goes: nowhere special, `Command.PIPE`, `Command.STDOUT` or a file. */
  datatype Target = Inherit | ToPipe | ToStdout | ToFile(name: string)

  datatype Node =
    | Pipe
    | And
    | Or
    | Command(name: string, argv: seq<string>, stdin: Option<string>, stdout: Target, stderr: Target,
              envVars: Option<map<string, string>>)
    | Chdir(dir: Option<string>)

  datatype Mode = Begin | InCommand | InChdir | InStderr | InStdout | InStdin

  /** The local variables of the loop together with the two fields it updates. */
  datatype Machine = Machine(mode: Mode, current: Option<Node>, envVars: map<string, string>, pipeline: seq<Node>)

  datatype Outcome = Parsed(pipeline: seq<Node>) | AssertionError

  // ----- the environment assignment pattern, shellcmd.py:23

  predicate WordChar(c: char) {
    'a' <= c <= 'z' || 'A' <= c <= 'Z' || '0' <= c <= '9' || c == '_'
  }

  predicate SpaceChar(c: char) {
    c in [' ', '\t', '\n', '\r', '\U{000B}', '\U{000C}']
  }

  predicate EnvName(s: string) {
    s != [] && forall i :: 0 <= i < |s| ==> WordChar(s[i])
  }

  predicate EnvValue(s: string) {
    s != [] && forall i :: 0 <= i < |s| ==> !SpaceChar(s[i])
  }

  /** The position of the first '=' or the length. */
  function FirstEquals(s: string): (i: nat)
    ensures i <= |s| && '=' !in s[..i] && (i < |s| ==> s[i] == '=')
  {
    if s == [] || s[0] == '=' then 0 else 1 + FirstEquals(s[1..])
  }

  /** What the pattern captures. It also accepts one newline after the value and drops it. */
  function EnvMatch(token: string): Option<(string, string)> {
    var i := FirstEquals(token);
    if i == |token| || !EnvName(token[..i]) then None
    else
      var value := token[i+1..];
      if EnvValue(value) then Some((token[..i], value))
      else if value != [] && value[|value|-1] == '\n' && EnvValue(value[..|value|-1])
        then Some((token[..i], value[..|value|-1]))
      else None
  }

  // ----- one token

  predicate Operator(token: string) {
    token in [">", "2>", "2>&1", "<", "|", "&&", "||"]
  }

  function NewCommand(token: string, envVars: map<string, string>): Node {
    Command(token, [token], None, Inherit, Inherit, if envVars != map[] then Some(envVars) else None)
  }

  /** Commits the current command and appends the operator after it. */
  function Commit(m: Machine, node: Node, op: Node): Machine {
    Machine(Begin, None, m.envVars, m.pipeline + [node] + [op])
  }

  /** The body of the loop, shellcmd.py:136-198; `None` is a failed assertion. */
  function Feed(m: Machine, token: string): Option<Machine> {
    match m.mode
    case Begin =>
      var env := EnvMatch(token);
      if env.Some? then Some(m.(envVars := m.envVars[env.value.0 := env.value.1]))
      else if m.current.Some? then None
      else if token == "cd" then
        if m.envVars != map[] then None else Some(m.(current := Some(Chdir(None)), mode := InChdir))
      else Some(m.(current := Some(NewCommand(token, m.envVars)), envVars := map[], mode := InCommand))
    case InChdir =>
      if m.current.None? || !m.current.value.Chdir? then None
      else if token == "&&" then Some(Commit(m, m.current.value, And))
      else if m.current.value.dir.Some? then None
      else Some(m.(current := Some(Chdir(Some(token)))))
    case _ =>
      if m.current.None? || !m.current.value.Command? then None else FeedCommand(m, m.current.value, token)
  }

  function FeedCommand(m: Machine, cmd: Node, token: string): Option<Machine>
    requires cmd.Command? && !m.mode.Begin? && !m.mode.InChdir?
  {
    match m.mode
    case InCommand =>
      if token == ">" then Some(m.(mode := InStdout))
      else if token == "2>" then Some(m.(mode := InStderr))
      else if token == "2>&1" then
        if cmd.stderr != Inherit then None else Some(m.(current := Some(cmd.(stderr := ToStdout))))
      else if token == "<" then Some(m.(mode := InStdin))
      else if token == "|" then
        if cmd.stdout != Inherit then None else Some(Commit(m, cmd.(stdout := ToPipe), Pipe))
      else if token == "&&" then Some(Commit(m, cmd, And))
      else if token == "||" then Some(Commit(m, cmd, Or))
      else Some(m.(current := Some(cmd.(argv := cmd.argv + [token]))))
    case InStdout =>
      if cmd.stdout != Inherit then None
      else Some(m.(current := Some(cmd.(stdout := ToFile(token))), mode := InCommand))
    case InStderr =>
      if cmd.stderr != Inherit then None
      else Some(m.(current := Some(cmd.(stderr := ToFile(token))), mode := InCommand))
    case InStdin =>
      if cmd.stdin != None then None
      else Some(m.(current := Some(cmd.(stdin := Some(token))), mode := InCommand))
  }

  function FeedAll(m: Machine, tokens: seq<string>): Option<Machine>
    decreases tokens
  {
    if tokens == [] then Some(m)
    else
      var next := Feed(m, tokens[0]);
      if next.None? then None else FeedAll(next.value, tokens[1..])
  }

  const START := Machine(Begin, None, map[], [])

  /** What `parse` makes of a token list. */
  function Parse(tokens: seq<string>): Outcome {
    var end := FeedAll(START, tokens);
    if end.None? || end.value.current.None? then AssertionError
    else Parsed(end.value.pipeline + [end.value.current.value])
  }

  /** The object of the program, with the two fields `parse` updates as it goes. */
  class Pipeline {
    var currentCommand: Option<Node>
    var pipeline: seq<Node>

    constructor ()
      ensures currentCommand == None && pipeline == []
    {
      currentCommand, pipeline := None, [];
    }

    /** shellcmd.py:100-103 */
    method CommitCommand() returns (ok: bool)
      modifies this
      ensures ok == old(currentCommand.Some?)
      ensures currentCommand == None
      ensures pipeline == if ok then old(pipeline) + [old(currentCommand).value] else old(pipeline)
    {
      if currentCommand == None {
        return false;
      }
      pipeline := pipeline + [currentCommand.value];
      currentCommand := None;
      return true;
    }

    ghost function Snapshot(mode: Mode, envVars: map<string, string>): Machine
      reads this
    {
      Machine(mode, currentCommand, envVars, pipeline)
    }

    /** shellcmd.py:120-200. When no assertion fails, the result is the new value of `pipeline`. */
    method ParseTokens(tokens0: seq<string>) returns (ok: bool)
      modifies this
      ensures ok <==> Parse(tokens0).Parsed?
      ensures ok ==> Parse(tokens0) == Parsed(pipeline) && currentCommand == None
    {
      currentCommand, pipeline := None, [];
      var mode, envVars: map<string, string> := Begin, map[];
      var tokens := tokens0;
      while tokens != []
        invariant FeedAll(START, tokens0) == FeedAll(Snapshot(mode, envVars), tokens)
      {
        var token := tokens[0];
        tokens := tokens[1..];
        ghost var before := Snapshot(mode, envVars);
        match mode
        case Begin =>
          var env := EnvMatch(token);
          if env.Some? {
            envVars := envVars[env.value.0 := env.value.1];
          } else {
            if currentCommand.Some? { return false; }
            if token == "cd" {
              currentCommand := Some(Chdir(None));
              if envVars != map[] { return false; }
              mode := InChdir;
            } else {
              currentCommand := Some(NewCommand(token, envVars));
              envVars := map[];
              mode := InCommand;
            }
          }
        case InChdir =>
          if currentCommand.None? || !currentCommand.value.Chdir? { return false; }
          if token == "&&" {
            var _ := CommitCommand();
            pipeline := pipeline + [And];
            mode := Begin;
          } else {
            if currentCommand.value.dir.Some? { return false; }
            currentCommand := Some(Chdir(Some(token)));
          }
        case _ =>
          if currentCommand.None? || !currentCommand.value.Command? { return false; }
          var good;
          mode, good := CommandToken(mode, envVars, token);
          if !good { return false; }
        assert Feed(before, token) == Some(Snapshot(mode, envVars));
      }
      ok := CommitCommand();
    }

    /** The branches that work on a command, shellcmd.py:153-178 and 187-198. */
    method CommandToken(mode0: Mode, ghost envVars: map<string, string>, token: string) returns (mode: Mode, good: bool)
      requires currentCommand.Some? && currentCommand.value.Command? && !mode0.Begin? && !mode0.InChdir?
      modifies this
      ensures good <==> FeedCommand(old(Snapshot(mode0, envVars)), old(currentCommand).value, token).Some?
      ensures good ==>
          FeedCommand(old(Snapshot(mode0, envVars)), old(currentCommand).value, token) == Some(Snapshot(mode, envVars))
    {
      var cmd := currentCommand.value;
      mode, good := InCommand, true;
      match mode0
      case InCommand =>
        if token == ">" {
          mode := InStdout;
        } else if token == "2>" {
          mode := InStderr;
        } else if token == "2>&1" {
          if cmd.stderr != Inherit { return mode, false; }
          currentCommand := Some(cmd.(stderr := ToStdout));
        } else if token == "<" {
          mode := InStdin;
        } else if token == "|" {
          if cmd.stdout != Inherit { return mode, false; }
          currentCommand := Some(cmd.(stdout := ToPipe));
          var _ := CommitCommand();
          pipeline := pipeline + [Pipe];
          mode := Begin;
        } else if token == "&&" {
          var _ := CommitCommand();
          pipeline := pipeline + [And];
          mode := Begin;
        } else if token == "||" {
          var _ := CommitCommand();
          pipeline := pipeline + [Or];
          mode := Begin;
        } else {
          currentCommand := Some(cmd.(argv := cmd.argv + [token]));
        }
      case InStdout =>
        if cmd.stdout != Inherit { return mode, false; }
        currentCommand := Some(cmd.(stdout := ToFile(token)));
      case InStderr =>
        if cmd.stderr != Inherit { return mode, false; }
        currentCommand := Some(cmd.(stderr := ToFile(token)));
      case InStdin =>
        if cmd.stdin != None { return mode, false; }
        currentCommand := Some(cmd.(stdin := Some(token)));
    }
  }
}
