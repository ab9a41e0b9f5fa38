/** Canonical tokens for a pipeline, and the two directions that make `Parse` their inverse: every
    well-formed pipeline is what its tokens parse to, and only well-formed pipelines come out. */
module ShellPrint {
  import opened Common
  import opened ShellParse

  // ----- which pipelines can come out of the parser

  predicate EnvOk(env: map<string, string>) {
    forall k :: k in env ==> EnvName(k) && EnvValue(env[k])
  }

  /** A command as `parse` leaves it, apart from what the operator after it does to `stdout`. */
  predicate CommandOk(c: Node) {
    && c.Command?
    && c.argv != [] && c.argv[0] == c.name && c.name != "cd" && EnvMatch(c.name) == None
    && (forall i :: 1 <= i < |c.argv| ==> !Operator(c.argv[i]))
    && !c.stderr.ToPipe? && !c.stdout.ToStdout?
    && (c.envVars.Some? ==> c.envVars.value != map[] && EnvOk(c.envVars.value))
  }

  predicate ChdirOk(c: Node) {
    c.Chdir? && c.dir != Some("&&")
  }

  /** `node` may stand before the operator `op`: output is piped exactly before `|`, and only `&&`
      can follow a `cd`. */
  predicate LinkOk(node: Node, op: Node) {
    || (CommandOk(node) && (op.Pipe? || op.And? || op.Or?) && (op.Pipe? <==> node.stdout.ToPipe?))
    || (ChdirOk(node) && op.And?)
  }

  predicate LastOk(node: Node) {
    (CommandOk(node) && !node.stdout.ToPipe?) || ChdirOk(node)
  }

  predicate LinksOk(p: seq<Node>) {
    p == [] || (|p| >= 2 && LinkOk(p[|p|-2], p[|p|-1]) && LinksOk(p[..|p|-2]))
  }

  predicate WellFormed(p: seq<Node>) {
    p != [] && LastOk(p[|p|-1]) && LinksOk(p[..|p|-1])
  }

  // ----- every parse gives a well-formed pipeline

  predicate MachineOk(m: Machine) {
    && LinksOk(m.pipeline) && EnvOk(m.envVars)
    && match m.mode
       case Begin => m.current == None
       case InChdir => m.current.Some? && ChdirOk(m.current.value) && m.envVars == map[]
       case _ => m.current.Some? && CommandOk(m.current.value) && !m.current.value.stdout.ToPipe? && m.envVars == map[]
  }

  lemma CommitOk(m: Machine, node: Node, op: Node)
    requires LinksOk(m.pipeline) && EnvOk(m.envVars) && LinkOk(node, op)
    ensures MachineOk(Commit(m, node, op))
  {
    var p := m.pipeline + [node] + [op];
    assert p[..|p|-2] == m.pipeline;
  }

  lemma FeedOk(m: Machine, token: string)
    requires MachineOk(m)
    ensures Feed(m, token).Some? ==> MachineOk(Feed(m, token).value)
  {
    hide LinksOk;
    match m.mode
    case Begin =>
      hide EnvMatch, FeedCommand;
    case InChdir =>
      CommitOk(m, m.current.value, And);
      hide FeedCommand, CommandOk;
    case _ => FeedCommandOk(m, token);
  }

  lemma FeedCommandOk(m: Machine, token: string)
    requires MachineOk(m) && !m.mode.Begin? && !m.mode.InChdir?
    ensures var next := FeedCommand(m, m.current.value, token); next.Some? ==> MachineOk(next.value)
  {
    hide LinksOk, EnvMatch;
    var cmd := m.current.value;
    if m.mode.InCommand? {
      if token == "|" {
        if cmd.stdout == Inherit {
          CommitOk(m, cmd.(stdout := ToPipe), Pipe);
        }
      } else {
        CommitOk(m, cmd, if token == "||" then Or else And);
      }
    }
  }

  lemma {:induction false} FeedAllOk(m: Machine, tokens: seq<string>)
    requires MachineOk(m)
    ensures FeedAll(m, tokens).Some? ==> MachineOk(FeedAll(m, tokens).value)
    decreases |tokens|
  {
    if tokens != [] && Feed(m, tokens[0]).Some? {
      FeedOk(m, tokens[0]);
      FeedAllOk(Feed(m, tokens[0]).value, tokens[1..]);
    }
  }

  /** Only well-formed pipelines come out of `parse`. */
  lemma ParseWellFormed(tokens: seq<string>)
    ensures Parse(tokens).Parsed? ==> WellFormed(Parse(tokens).pipeline)
  {
    FeedAllOk(START, tokens);
    if Parse(tokens).Parsed? {
      var end := FeedAll(START, tokens).value;
      assert (end.pipeline + [end.current.value])[..|end.pipeline|] == end.pipeline;
    }
  }

  // ----- printing

  /** `keys` lists the variables of the command's environment, each once, in some order. */
  ghost predicate Enumerates(keys: seq<string>, node: Node) {
    var env := if node.Command? && node.envVars.Some? then node.envVars.value else map[];
    && (forall k :: k in keys <==> k in env)
    && (forall i, j :: 0 <= i < j < |keys| ==> keys[i] != keys[j])
  }

  function EnvTokens(keys: seq<string>, env: map<string, string>): seq<string>
    requires forall k :: k in keys ==> k in env
  {
    if keys == [] then [] else EnvTokens(keys[..|keys|-1], env) + [keys[|keys|-1] + "=" + env[keys[|keys|-1]]]
  }

  function Redirections(c: Node): seq<string>
    requires c.Command?
  {
    (if c.stdin.Some? then ["<", c.stdin.value] else [])
    + (if c.stdout.ToFile? then [">", c.stdout.name] else [])
    + (if c.stderr.ToFile? then ["2>", c.stderr.name] else if c.stderr.ToStdout? then ["2>&1"] else [])
  }

  ghost function NodeTokens(node: Node, keys: seq<string>): seq<string>
    requires (node.Command? || node.Chdir?) && Enumerates(keys, node)
  {
    if node.Chdir? then ["cd"] + (if node.dir.Some? then [node.dir.value] else [])
    else (if node.envVars.Some? then EnvTokens(keys, node.envVars.value) else [])
         + node.argv + Redirections(node)
  }

  function OpToken(op: Node): string {
    match op
    case Pipe => "|"
    case Or => "||"
    case _ => "&&"
  }

  /** `keys[i]` orders the environment of node `i`; it is ignored for operators. */
  ghost predicate KeysFor(p: seq<Node>, keys: seq<seq<string>>) {
    |keys| == |p| && forall i :: 0 <= i < |p| && (p[i].Command? || p[i].Chdir?) ==> Enumerates(keys[i], p[i])
  }

  ghost function PrintLinks(p: seq<Node>, keys: seq<seq<string>>): seq<string>
    requires LinksOk(p) && KeysFor(p, keys)
  {
    if p == [] then []
    else
      var n := |p| - 2;
      PrintLinks(p[..n], keys[..n]) + NodeTokens(p[n], keys[n]) + [OpToken(p[n+1])]
  }

  ghost function Print(p: seq<Node>, keys: seq<seq<string>>): seq<string>
    requires WellFormed(p) && KeysFor(p, keys)
  {
    var n := |p| - 1;
    PrintLinks(p[..n], keys[..n]) + NodeTokens(p[n], keys[n])
  }

  // ----- parsing what was printed

  lemma {:induction false} FeedAllConcat(m: Machine, s: seq<string>, t: seq<string>)
    ensures FeedAll(m, s + t) == if FeedAll(m, s).None? then None else FeedAll(FeedAll(m, s).value, t)
    decreases |s|
  {
    if s == [] {
      assert s + t == t;
    } else {
      assert (s + t)[1..] == s[1..] + t;
      if Feed(m, s[0]).Some? {
        FeedAllConcat(Feed(m, s[0]).value, s[1..], t);
      }
    }
  }

  lemma FeedOne(m: Machine, token: string)
    ensures FeedAll(m, [token]) == Feed(m, token)
  {
  }

  lemma FeedTwo(m: Machine, s: string, t: string)
    ensures Feed(m, s).Some? ==> FeedAll(m, [s, t]) == Feed(Feed(m, s).value, t)
  {
    assert [s, t][1..] == [t];
    if Feed(m, s).Some? {
      FeedOne(Feed(m, s).value, t);
    }
  }

  lemma {:induction false} FirstEqualsAt(name: string, value: string)
    requires '=' !in name
    ensures FirstEquals(name + "=" + value) == |name|
    decreases |name|
  {
    if name != [] {
      assert (name + "=" + value)[1..] == name[1..] + "=" + value;
      FirstEqualsAt(name[1..], value);
    }
  }

  lemma EnvTokenMatches(name: string, value: string)
    requires EnvName(name) && EnvValue(value)
    ensures EnvMatch(name + "=" + value) == Some((name, value))
  {
    FirstEqualsAt(name, value);
    assert (name + "=" + value)[..|name|] == name;
    assert (name + "=" + value)[|name|+1..] == value;
  }

  function Restricted(env: map<string, string>, keys: seq<string>): map<string, string>
    requires forall k :: k in keys ==> k in env
  {
    map k | k in env && k in keys :: env[k]
  }

  lemma {:induction false} FeedEnv(pre: seq<Node>, keys: seq<string>, env: map<string, string>)
    requires EnvOk(env) && forall k :: k in keys ==> k in env
    ensures FeedAll(Machine(Begin, None, map[], pre), EnvTokens(keys, env))
            == Some(Machine(Begin, None, Restricted(env, keys), pre))
    decreases |keys|
  {
    var m := Machine(Begin, None, map[], pre);
    if keys != [] {
      var rest, k := keys[..|keys|-1], keys[|keys|-1];
      FeedEnv(pre, rest, env);
      FeedAllConcat(m, EnvTokens(rest, env), [k + "=" + env[k]]);
      EnvTokenMatches(k, env[k]);
      FeedOne(Machine(Begin, None, Restricted(env, rest), pre), k + "=" + env[k]);
      assert Restricted(env, rest)[k := env[k]] == Restricted(env, keys);
    }
  }

  lemma {:induction false} FeedArgs(m: Machine, args: seq<string>)
    requires m.mode.InCommand? && m.current.Some? && m.current.value.Command?
    requires forall i :: 0 <= i < |args| ==> !Operator(args[i])
    ensures var cmd := m.current.value;
            FeedAll(m, args) == Some(m.(current := Some(cmd.(argv := cmd.argv + args))))
    decreases |args|
  {
    var cmd := m.current.value;
    if args == [] {
      assert cmd.argv + args == cmd.argv;
    } else {
      var next := Feed(m, args[0]).value;
      FeedArgs(next, args[1..]);
      assert cmd.argv + [args[0]] + args[1..] == cmd.argv + args;
    }
  }

  lemma FeedRedirections(m: Machine, c: Node)
    requires m.mode.InCommand? && c.Command? && !c.stderr.ToPipe? && !c.stdout.ToStdout?
    requires m.current == Some(c.(stdin := None, stdout := Inherit, stderr := Inherit))
    ensures FeedAll(m, Redirections(c))
      == Some(m.(current := Some(if c.stdout.ToPipe? then c.(stdout := Inherit) else c)))
  {
    var cmd := m.current.value;
    var stdin := if c.stdin.Some? then ["<", c.stdin.value] else [];
    var stdout := if c.stdout.ToFile? then [">", c.stdout.name] else [];
    var stderr := if c.stderr.ToFile? then ["2>", c.stderr.name] else if c.stderr.ToStdout? then ["2>&1"] else [];
    var m1 := m.(current := Some(cmd.(stdin := c.stdin)));
    var m2 := m.(current := Some(cmd.(stdin := c.stdin, stdout := if c.stdout.ToPipe? then Inherit else c.stdout)));
    if c.stdin.Some? {
      FeedTwo(m, "<", c.stdin.value);
    }
    assert FeedAll(m, stdin) == Some(m1);
    if c.stdout.ToFile? {
      FeedTwo(m1, ">", c.stdout.name);
    }
    assert FeedAll(m1, stdout) == Some(m2);
    if c.stderr.ToFile? {
      FeedTwo(m2, "2>", c.stderr.name);
    } else if c.stderr.ToStdout? {
      FeedOne(m2, "2>&1");
    }
    FeedAllConcat(m, stdin, stdout);
    FeedAllConcat(m, stdin + stdout, stderr);
  }

  function Unpiped(node: Node): Node {
    if node.Command? && node.stdout.ToPipe? then node.(stdout := Inherit) else node
  }

  lemma FeedCommandTokens(pre: seq<Node>, c: Node, keys: seq<string>)
    requires CommandOk(c) && Enumerates(keys, c)
    ensures FeedAll(Machine(Begin, None, map[], pre), NodeTokens(c, keys))
            == Some(Machine(InCommand, Some(Unpiped(c)), map[], pre))
  {
    var m0 := Machine(Begin, None, map[], pre);
    var env := if c.envVars.Some? then c.envVars.value else map[];
    var envTokens := if c.envVars.Some? then EnvTokens(keys, env) else [];
    var bare := c.(stdin := None, stdout := Inherit, stderr := Inherit);
    var m1, m2 := Machine(Begin, None, env, pre), Machine(InCommand, Some(bare.(argv := [c.name])), map[], pre);
    assert FeedAll(m0, envTokens) == Some(m1) by {
      if c.envVars.Some? {
        FeedEnv(pre, keys, env);
        assert Restricted(env, keys) == env;
      }
    }
    FeedArgs(m2, c.argv[1..]);
    assert [c.name] + c.argv[1..] == c.argv;
    FeedRedirections(m2.(current := Some(bare)), c);
    hide Feed, Redirections;
    assert c.argv[0] == c.name;
    assert FeedAll(m1, c.argv) == Some(m2.(current := Some(bare)));
    FeedAllConcat(m0, envTokens, c.argv);
    FeedAllConcat(m0, envTokens + c.argv, Redirections(c));
  }

  lemma FeedChdirTokens(pre: seq<Node>, node: Node, keys: seq<string>)
    requires ChdirOk(node) && Enumerates(keys, node)
    ensures FeedAll(Machine(Begin, None, map[], pre), NodeTokens(node, keys))
            == Some(Machine(InChdir, Some(node), map[], pre))
  {
    var m := Machine(Begin, None, map[], pre);
    assert FirstEquals("cd") == 2;
    if node.dir.Some? {
      FeedTwo(m, "cd", node.dir.value);
      assert NodeTokens(node, keys) == ["cd", node.dir.value];
    } else {
      FeedOne(m, "cd");
      assert NodeTokens(node, keys) == ["cd"];
    }
  }

  /** A node that is not an operator is taken in as the current command; what `|` does to it comes later. */
  lemma FeedNode(pre: seq<Node>, node: Node, keys: seq<string>)
    requires (CommandOk(node) || ChdirOk(node)) && Enumerates(keys, node)
    ensures FeedAll(Machine(Begin, None, map[], pre), NodeTokens(node, keys))
            == Some(Machine(if node.Chdir? then InChdir else InCommand, Some(Unpiped(node)), map[], pre))
  {
    hide NodeTokens, Enumerates;
    if node.Chdir? {
      FeedChdirTokens(pre, node, keys);
    } else {
      FeedCommandTokens(pre, node, keys);
    }
  }

  lemma FeedOperator(pre: seq<Node>, node: Node, op: Node)
    requires LinkOk(node, op)
    ensures FeedAll(Machine(if node.Chdir? then InChdir else InCommand, Some(Unpiped(node)), map[], pre), [OpToken(op)])
            == Some(Machine(Begin, None, map[], pre + [node] + [op]))
  {
    FeedOne(Machine(if node.Chdir? then InChdir else InCommand, Some(Unpiped(node)), map[], pre), OpToken(op));
    hide FeedAll;
  }

  lemma FeedLink(pre: seq<Node>, node: Node, op: Node, keys: seq<string>)
    requires LinkOk(node, op) && Enumerates(keys, node)
    ensures FeedAll(Machine(Begin, None, map[], pre), NodeTokens(node, keys) + [OpToken(op)])
            == Some(Machine(Begin, None, map[], pre + [node] + [op]))
  {
    assert CommandOk(node) || ChdirOk(node);
    hide *;
    FeedNode(pre, node, keys);
    FeedOperator(pre, node, op);
    Compose(Machine(Begin, None, map[], pre), NodeTokens(node, keys),
            Machine(if node.Chdir? then InChdir else InCommand, Some(Unpiped(node)), map[], pre), [OpToken(op)],
            Machine(Begin, None, map[], pre + [node] + [op]));
  }

  lemma Compose(m: Machine, s: seq<string>, m1: Machine, t: seq<string>, m2: Machine)
    requires FeedAll(m, s) == Some(m1) && FeedAll(m1, t) == Some(m2)
    ensures FeedAll(m, s + t) == Some(m2)
  {
    FeedAllConcat(m, s, t);
  }

  /** The last link of a non-empty list, and the links before it. */
  lemma LinksUnfold(p: seq<Node>, keys: seq<seq<string>>)
    requires LinksOk(p) && KeysFor(p, keys) && p != []
    ensures |p| == |keys| && |p| >= 2 && LinksOk(p[..|p|-2]) && LinkOk(p[|p|-2], p[|p|-1])
    ensures p[|p|-2].Command? || p[|p|-2].Chdir?
    ensures KeysFor(p[..|p|-2], keys[..|p|-2]) && Enumerates(keys[|p|-2], p[|p|-2])
  {
    hide Enumerates;
  }

  lemma PrintLinksUnfold(p: seq<Node>, keys: seq<seq<string>>)
    requires LinksOk(p) && KeysFor(p, keys) && |p| == |keys| && |p| >= 2
    requires LinksOk(p[..|p|-2]) && KeysFor(p[..|p|-2], keys[..|p|-2])
    requires (p[|p|-2].Command? || p[|p|-2].Chdir?) && Enumerates(keys[|p|-2], p[|p|-2])
    ensures PrintLinks(p, keys)
            == PrintLinks(p[..|p|-2], keys[..|p|-2]) + (NodeTokens(p[|p|-2], keys[|p|-2]) + [OpToken(p[|p|-1])])
  {
    hide LinksOk, KeysFor, NodeTokens, Enumerates, OpToken;
  }

  lemma LinkStep(tokens: seq<string>, pre: seq<Node>, node: Node, op: Node, keys: seq<string>)
    requires FeedAll(START, tokens) == Some(Machine(Begin, None, map[], pre))
      && LinkOk(node, op) && Enumerates(keys, node)
    ensures FeedAll(START, tokens + (NodeTokens(node, keys) + [OpToken(op)]))
            == Some(Machine(Begin, None, map[], pre + [node] + [op]))
  {
    FeedLink(pre, node, op, keys);
    hide *;
    Compose(START, tokens, Machine(Begin, None, map[], pre), NodeTokens(node, keys) + [OpToken(op)],
            Machine(Begin, None, map[], pre + [node] + [op]));
  }

  lemma PrintNoLinks(keys: seq<seq<string>>)
    requires KeysFor([], keys)
    ensures FeedAll(START, PrintLinks([], keys)) == Some(Machine(Begin, None, map[], []))
  {
  }

  lemma {:induction false} FeedLinks(p: seq<Node>, keys: seq<seq<string>>)
    requires LinksOk(p) && KeysFor(p, keys)
    ensures FeedAll(START, PrintLinks(p, keys)) == Some(Machine(Begin, None, map[], p))
    decreases |p|
  {
    hide *;
    if p == [] {
      PrintNoLinks(keys);
    } else {
      LinksUnfold(p, keys);
      PrintLinksUnfold(p, keys);
      var n := |p| - 2;
      FeedLinks(p[..n], keys[..n]);
      LinkStep(PrintLinks(p[..n], keys[..n]), p[..n], p[n], p[n+1], keys[n]);
      assert p[..n] + [p[n]] + [p[n+1]] == p;
    }
  }

  /** Round trip: the tokens of a well-formed pipeline parse to that pipeline. */
  lemma RoundTrip(p: seq<Node>, keys: seq<seq<string>>)
    requires WellFormed(p) && KeysFor(p, keys)
    ensures Parse(Print(p, keys)) == Parsed(p)
  {
    var n := |p| - 1;
    var pre, node := p[..n], p[n];
    assert Enumerates(keys[n], node) && KeysFor(pre, keys[..n]) && pre + [node] == p && Unpiped(node) == node;
    FeedLinks(pre, keys[..n]);
    FeedNode(pre, node, keys[n]);
    hide FeedAll, PrintLinks, NodeTokens, LinksOk, Enumerates, LastOk;
    var end := Machine(if node.Chdir? then InChdir else InCommand, Some(node), map[], pre);
    Compose(START, PrintLinks(pre, keys[..n]), Machine(Begin, None, map[], pre), NodeTokens(node, keys[n]), end);
  }

  // ----- the image of the parser

  lemma {:induction false} KeyOrder(env: map<string, string>, todo: set<string>) returns (keys: seq<string>)
    requires todo <= env.Keys
    ensures (forall k :: k in keys <==> k in todo) && forall i, j :: 0 <= i < j < |keys| ==> keys[i] != keys[j]
    decreases todo
  {
    if todo == {} {
      return [];
    }
    var k :| k in todo;
    keys := KeyOrder(env, todo - {k});
    keys := keys + [k];
  }

  lemma {:induction false} KeyOrders(p: seq<Node>) returns (keys: seq<seq<string>>)
    ensures KeysFor(p, keys)
    decreases |p|
  {
    if p == [] {
      return [];
    }
    var n := |p| - 1;
    keys := KeyOrders(p[..n]);
    var env := if p[n].Command? && p[n].envVars.Some? then p[n].envVars.value else map[];
    var last := KeyOrder(env, env.Keys);
    keys := keys + [last];
  }

  /** The pipelines `parse` can produce are exactly the well-formed ones. */
  lemma Image(p: seq<Node>)
    ensures WellFormed(p) <==> exists tokens :: Parse(tokens) == Parsed(p)
  {
    if WellFormed(p) {
      var keys := KeyOrders(p);
      RoundTrip(p, keys);
    }
    if tokens :| Parse(tokens) == Parsed(p) {
      ParseWellFormed(tokens);
    }
  }
}
