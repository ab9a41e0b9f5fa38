/** What `Pipeline.parse` of waf-tools/shellcmd.py accepts, without the token machine: commands whose arguments
    and redirections come in any order, `cd`s, and the operators between them. */
module ShellGrammar {
  import opened Common
  import opened ShellParse
  import ShellPrint

  // ----- one command

  /** What can follow the name of a command. */
  datatype Item =
    | Arg(word: string)
    | StdinFrom(file: string)
    | StdoutTo(file: string)
    | StderrTo(file: string)
    | StderrToStdout

  function ItemTokens(item: Item): seq<string> {
    match item
    case Arg(word) => [word]
    case StdinFrom(file) => ["<", file]
    case StdoutTo(file) => [">", file]
    case StderrTo(file) => ["2>", file]
    case StderrToStdout => ["2>&1"]
  }

  function ItemsTokens(items: seq<Item>): seq<string> {
    if items == [] then [] else ItemsTokens(items[..|items|-1]) + ItemTokens(items[|items|-1])
  }

  /** Arguments are words that are not operators; a file may have any name. */
  predicate WordsOk(items: seq<Item>) {
    forall i :: 0 <= i < |items| && items[i].Arg? ==> !Operator(items[i].word)
  }

  predicate SameStream(a: Item, b: Item) {
    || (a.StdinFrom? && b.StdinFrom?)
    || (a.StdoutTo? && b.StdoutTo?)
    || ((a.StderrTo? || a.StderrToStdout?) && (b.StderrTo? || b.StderrToStdout?))
  }

  /** No stream is redirected twice. */
  predicate OncePerStream(items: seq<Item>) {
    forall i, j :: 0 <= i < j < |items| ==> !SameStream(items[i], items[j])
  }

  function Words(items: seq<Item>): seq<string> {
    if items == [] then []
    else Words(items[..|items|-1]) + if items[|items|-1].Arg? then [items[|items|-1].word] else []
  }

  /** Every argument in order, every stream as its item says or else inherited. */
  ghost predicate Follows(node: Node, name: string, items: seq<Item>) {
    && node.Command? && node.name == name && node.argv == [name] + Words(items)
    && (forall f :: node.stdin == Some(f) <==> StdinFrom(f) in items)
    && !node.stdout.ToPipe? && !node.stdout.ToStdout?
    && (forall f :: node.stdout == ToFile(f) <==> StdoutTo(f) in items)
    && !node.stderr.ToPipe?
    && (forall f :: node.stderr == ToFile(f) <==> StderrTo(f) in items)
    && (node.stderr == ToStdout <==> StderrToStdout in items)
  }

  lemma OnceMore(items: seq<Item>, item: Item)
    ensures OncePerStream(items + [item])
      <==> OncePerStream(items) && forall i :: 0 <= i < |items| ==> !SameStream(items[i], item)
  {
    var all := items + [item];
    assert forall i :: 0 <= i < |items| ==> all[i] == items[i];
    assert all[|items|] == item;
  }

  /** A stream is free for an item exactly when no earlier item names it. */
  predicate Free(node: Node, item: Item)
    requires node.Command?
  {
    match item
    case Arg(_) => true
    case StdinFrom(_) => node.stdin == None
    case StdoutTo(_) => node.stdout == Inherit
    case _ => node.stderr == Inherit
  }

  lemma FreeUnlessNamed(node: Node, name: string, items: seq<Item>, item: Item)
    requires Follows(node, name, items)
    ensures Free(node, item) <==> forall i :: 0 <= i < |items| ==> !SameStream(items[i], item)
  {
    if i :| 0 <= i < |items| && SameStream(items[i], item) {
      assert items[i] in items;
    }
    if node.stdin.Some? {
      assert StdinFrom(node.stdin.value) in items;
    }
    if node.stdout.ToFile? {
      assert StdoutTo(node.stdout.name) in items;
    }
    if node.stderr.ToFile? {
      assert StderrTo(node.stderr.name) in items;
    }
  }

  function With(node: Node, item: Item): Node
    requires node.Command?
  {
    match item
    case Arg(word) => node.(argv := node.argv + [word])
    case StdinFrom(file) => node.(stdin := Some(file))
    case StdoutTo(file) => node.(stdout := ToFile(file))
    case StderrTo(file) => node.(stderr := ToFile(file))
    case StderrToStdout => node.(stderr := ToStdout)
  }

  lemma WithFollows(node: Node, name: string, items: seq<Item>, item: Item)
    requires Follows(node, name, items) && Free(node, item)
    ensures Follows(With(node, item), name, items + [item]) && With(node, item).envVars == node.envVars
  {
    assert (items + [item])[..|items|] == items;
    assert forall x :: x in items + [item] <==> x in items || x == item;
  }

  lemma FeedItem(pre: seq<Node>, node: Node, item: Item)
    requires node.Command? && (item.Arg? ==> !Operator(item.word))
    ensures FeedAll(Machine(InCommand, Some(node), map[], pre), ItemTokens(item))
      == if Free(node, item) then Some(Machine(InCommand, Some(With(node, item)), map[], pre)) else None
  {
    var m := Machine(InCommand, Some(node), map[], pre);
    var t := ItemTokens(item);
    if |t| == 1 {
      ShellPrint.FeedOne(m, t[0]);
    } else {
      ShellPrint.FeedTwo(m, t[0], t[1]);
    }
    hide FeedAll;
  }

  ghost predicate Taken(end: Machine, pre: seq<Node>, node: Node, name: string, items: seq<Item>)
    requires node.Command?
  {
    && end.current.Some? && Follows(end.current.value, name, items)
    && end.current.value.envVars == node.envVars
    && end == Machine(InCommand, end.current, map[], pre)
  }

  /** Arguments and redirections after a command name, in any order: they are taken in exactly when no stream is
      redirected twice. */
  lemma {:induction false} FeedItems(pre: seq<Node>, node: Node, name: string, items: seq<Item>)
    requires Follows(node, name, []) && WordsOk(items)
    ensures var end := FeedAll(Machine(InCommand, Some(node), map[], pre), ItemsTokens(items));
      && (end.Some? <==> OncePerStream(items))
      && (end.Some? ==> Taken(end.value, pre, node, name, items))
    decreases |items|
  {
    var m := Machine(InCommand, Some(node), map[], pre);
    if items != [] {
      var front, item := items[..|items|-1], items[|items|-1];
      assert items == front + [item] && WordsOk(front) && (item.Arg? ==> !Operator(item.word));
      assert ItemsTokens(items) == ItemsTokens(front) + ItemTokens(item);
      hide *;
      FeedItems(pre, node, name, front);
      ShellPrint.FeedAllConcat(m, ItemsTokens(front), ItemTokens(item));
      OnceMore(front, item);
      var mid := FeedAll(m, ItemsTokens(front));
      if mid.Some? {
        FollowsCommand(mid.value.current.value, name, front);
        FeedItem(pre, mid.value.current.value, item);
        FreeUnlessNamed(mid.value.current.value, name, front, item);
        if Free(mid.value.current.value, item) {
          WithFollows(mid.value.current.value, name, front, item);
        }
      }
    }
  }

  lemma FollowsCommand(node: Node, name: string, items: seq<Item>)
    requires Follows(node, name, items)
    ensures node.Command?
  {
  }

  // ----- the variables assigned before a command

  type Assignment = (string, string)

  function AssignTokens(assigns: seq<Assignment>): seq<string> {
    if assigns == [] then []
    else AssignTokens(assigns[..|assigns|-1]) + [assigns[|assigns|-1].0 + "=" + assigns[|assigns|-1].1]
  }

  predicate AssignsOk(assigns: seq<Assignment>) {
    forall i :: 0 <= i < |assigns| ==> EnvName(assigns[i].0) && EnvValue(assigns[i].1)
  }

  predicate LastOf(assigns: seq<Assignment>, i: nat)
    requires i < |assigns|
  {
    forall j :: i < j < |assigns| ==> assigns[j].0 != assigns[i].0
  }

  /** Every variable named has the value of its last assignment, and no other has one. */
  ghost predicate LastWins(env: map<string, string>, assigns: seq<Assignment>) {
    && (forall k :: k in env <==> exists i :: 0 <= i < |assigns| && assigns[i].0 == k)
    && (forall i :: 0 <= i < |assigns| && LastOf(assigns, i) ==>
          assigns[i].0 in env && env[assigns[i].0] == assigns[i].1)
  }

  lemma LastWinsMore(env: map<string, string>, assigns: seq<Assignment>, a: Assignment)
    requires LastWins(env, assigns)
    ensures LastWins(env[a.0 := a.1], assigns + [a])
  {
    var all := assigns + [a];
    assert all[|assigns|] == a && forall i :: 0 <= i < |assigns| ==> all[i] == assigns[i];
    forall i | 0 <= i < |all| && LastOf(all, i) ensures env[a.0 := a.1][all[i].0] == all[i].1 {
      if i < |assigns| {
        assert LastOf(assigns, i) && all[i].0 != a.0;
      }
    }
  }

  /** What the pattern of line 23 accepts, and what it takes as name and value. */
  lemma EnvMatchExactly(token: string, name: string, value: string)
    ensures EnvMatch(token) == Some((name, value)) <==>
      EnvName(name) && EnvValue(value) && (token == name + "=" + value || token == name + "=" + value + "\n")
  {
    if EnvName(name) && EnvValue(value) {
      ShellPrint.EnvTokenMatches(name, value);
      EnvLineMatches(name, value);
    }
    if EnvMatch(token).Some? {
      var i := FirstEquals(token);
      assert token == token[..i] + "=" + token[i+1..];
      var rest := token[i+1..];
      hide FirstEquals;
      assert !EnvValue(rest) ==> rest == rest[..|rest|-1] + "\n";
    }
  }

  lemma EnvLineMatches(name: string, value: string)
    requires EnvName(name) && EnvValue(value)
    ensures EnvMatch(name + "=" + value + "\n") == Some((name, value))
  {
    var line, rest := name + "=" + value + "\n", value + "\n";
    assert line == name + "=" + rest;
    ShellPrint.FirstEqualsAt(name, rest);
    hide FirstEquals;
    assert line[..|name|] == name && line[|name|+1..] == rest;
    assert rest[|value|] == '\n' && rest[..|value|] == value;
    assert SpaceChar(rest[|value|]);
  }

  lemma {:induction false} FeedAssigns(pre: seq<Node>, assigns: seq<Assignment>) returns (env: map<string, string>)
    requires AssignsOk(assigns)
    ensures FeedAll(Machine(Begin, None, map[], pre), AssignTokens(assigns)) == Some(Machine(Begin, None, env, pre))
    ensures LastWins(env, assigns)
    decreases |assigns|
  {
    if assigns == [] {
      return map[];
    }
    var front, a := assigns[..|assigns|-1], assigns[|assigns|-1];
    assert assigns == front + [a];
    env := FeedAssigns(pre, front);
    var m := Machine(Begin, None, map[], pre);
    ShellPrint.FeedAllConcat(m, AssignTokens(front), [a.0 + "=" + a.1]);
    ShellPrint.EnvTokenMatches(a.0, a.1);
    ShellPrint.FeedOne(Machine(Begin, None, env, pre), a.0 + "=" + a.1);
    LastWinsMore(env, front, a);
    env := env[a.0 := a.1];
    hide LastWins, FeedAll, EnvMatch;
  }

  // ----- lists of commands and `cd`s

  datatype Part =
    | CommandPart(assigns: seq<Assignment>, name: string, items: seq<Item>)
    | CdPart(assigns: seq<Assignment>, words: seq<string>)

  function PartTokens(part: Part): seq<string> {
    AssignTokens(part.assigns)
    + match part
      case CommandPart(_, name, items) => [name] + ItemsTokens(items)
      case CdPart(_, words) => ["cd"] + words
  }

  /** A command has a name of its own; every word up to `&&` belongs to a `cd`. */
  predicate Written(part: Part) {
    && AssignsOk(part.assigns)
    && match part
       case CommandPart(_, name, items) => name != "cd" && EnvMatch(name) == None && WordsOk(items)
       case CdPart(_, words) => "&&" !in words
  }

  /** What no assertion objects to. */
  predicate Accepted(part: Part) {
    match part
    case CommandPart(_, _, items) => OncePerStream(items)
    case CdPart(assigns, words) => assigns == [] && |words| <= 1
  }

  ghost predicate Describes(node: Node, part: Part) {
    match part
    case CommandPart(assigns, name, items) =>
      && Follows(node, name, items)
      && (node.envVars.None? <==> assigns == [])
      && (node.envVars.Some? ==> LastWins(node.envVars.value, assigns))
    case CdPart(_, words) => node == Chdir(if words == [] then None else Some(words[0]))
  }

  ghost predicate ReadPart(end: Machine, pre: seq<Node>, part: Part) {
    && end.current.Some? && Describes(end.current.value, part)
    && end == Machine(if part.CdPart? then InChdir else InCommand, end.current, map[], pre)
  }

  lemma FeedPart(pre: seq<Node>, part: Part)
    requires Written(part)
    ensures var end := FeedAll(Machine(Begin, None, map[], pre), PartTokens(part));
      (end.Some? <==> Accepted(part)) && (end.Some? ==> ReadPart(end.value, pre, part))
  {
    var m := Machine(Begin, None, map[], pre);
    var env := FeedAssigns(pre, part.assigns);
    assert env == map[] <==> part.assigns == [] by {
      if part.assigns != [] {
        assert part.assigns[0].0 in env;
      }
    }
    var rest := if part.CdPart? then ["cd"] + part.words else [part.name] + ItemsTokens(part.items);
    ShellPrint.FeedAllConcat(m, AssignTokens(part.assigns), rest);
    hide LastWins;
    match part
    case CommandPart(assigns, name, items) => FeedCommandPart(pre, env, name, items);
    case CdPart(assigns, words) => FeedCdPart(pre, env, words);
  }

  lemma FeedCommandPart(pre: seq<Node>, env: map<string, string>, name: string, items: seq<Item>)
    requires name != "cd" && EnvMatch(name) == None && WordsOk(items)
    ensures var end := FeedAll(Machine(Begin, None, env, pre), [name] + ItemsTokens(items));
      (end.Some? <==> OncePerStream(items)) && (end.Some? ==> Taken(end.value, pre, NewCommand(name, env), name, items))
  {
    var m, node := Machine(Begin, None, env, pre), NewCommand(name, env);
    assert Feed(m, name) == Some(Machine(InCommand, Some(node), map[], pre));
    assert Follows(node, name, []);
    hide Feed, NewCommand;
    ShellPrint.FeedOne(m, name);
    ShellPrint.FeedAllConcat(m, [name], ItemsTokens(items));
    FeedItems(pre, node, name, items);
  }

  lemma FeedCdPart(pre: seq<Node>, env: map<string, string>, words: seq<string>)
    requires "&&" !in words
    ensures FeedAll(Machine(Begin, None, env, pre), ["cd"] + words)
      == if env == map[] && |words| <= 1 then Some(AtCd(pre, words)) else None
  {
    assert FirstEquals("cd") == 2;
    var m := Machine(Begin, None, env, pre);
    assert Feed(m, "cd") == if env == map[] then Some(AtCd(pre, [])) else None;
    hide Feed;
    ShellPrint.FeedAllConcat(m, ["cd"], words);
    ShellPrint.FeedOne(m, "cd");
    CdWords(pre, words);
  }

  function AtCd(pre: seq<Node>, words: seq<string>): Machine {
    Machine(InChdir, Some(Chdir(if words == [] then None else Some(words[0]))), map[], pre)
  }

  lemma CdWords(pre: seq<Node>, words: seq<string>)
    requires "&&" !in words
    ensures FeedAll(AtCd(pre, []), words) == if |words| <= 1 then Some(AtCd(pre, words)) else None
  {
    if words != [] {
      assert words[0] in words && Feed(AtCd(pre, []), words[0]) == Some(AtCd(pre, [words[0]]));
    }
    if |words| > 1 {
      assert words[1] in words && Feed(AtCd(pre, [words[0]]), words[1]) == None && words[1..][0] == words[1];
    }
    hide Feed;
  }

  /** A command takes any operator, but `|` only if its output goes nowhere else. */
  predicate Fits(part: Part, op: Node) {
    op.Pipe? ==> part.CommandPart? && forall i :: 0 <= i < |part.items| ==> !part.items[i].StdoutTo?
  }

  /** The node stands before the operator: output is piped before `|`. */
  ghost predicate DescribesBefore(node: Node, part: Part, op: Node) {
    if op.Pipe? then node.Command? && node.stdout.ToPipe? && Describes(node.(stdout := Inherit), part)
    else Describes(node, part)
  }

  ghost predicate Committed(end: Machine, pre: seq<Node>, part: Part, op: Node) {
    && |end.pipeline| == |pre| + 2 && end.pipeline[..|pre|] == pre
    && DescribesBefore(end.pipeline[|pre|], part, op) && end.pipeline[|pre|+1] == op
    && end == Machine(Begin, None, map[], end.pipeline)
  }

  lemma FeedOperatorAfter(m: Machine, pre: seq<Node>, part: Part, op: Node)
    requires ReadPart(m, pre, part) && (op.Pipe? || op.And? || op.Or?) && (part.CdPart? ==> op.And?)
    ensures var end := Feed(m, ShellPrint.OpToken(op));
      && (end.Some? <==> Fits(part, op))
      && (end.Some? ==> Committed(end.value, pre, part, op))
  {
    var node := m.current.value;
    if part.CommandPart? {
      if i :| 0 <= i < |part.items| && part.items[i].StdoutTo? {
        assert StdoutTo(part.items[i].file) in part.items;
      }
      if node.stdout.ToFile? {
        assert StdoutTo(node.stdout.name) in part.items;
      }
      assert node.(stdout := Inherit).stdin == node.stdin;
    }
    hide LastWins, OncePerStream;
  }

  function ListTokens(parts: seq<Part>, ops: seq<Node>): seq<string>
    requires |parts| == |ops| + 1
  {
    if ops == [] then PartTokens(parts[0])
    else PartTokens(parts[0]) + [ShellPrint.OpToken(ops[0])] + ListTokens(parts[1..], ops[1..])
  }

  /** Parts joined by operators; only `&&` ends the words of a `cd`. */
  predicate ListWritten(parts: seq<Part>, ops: seq<Node>) {
    && |parts| == |ops| + 1
    && (forall i :: 0 <= i < |parts| ==> Written(parts[i]))
    && (forall i :: 0 <= i < |ops| ==>
          (ops[i].Pipe? || ops[i].And? || ops[i].Or?) && (parts[i].CdPart? ==> ops[i].And?))
  }

  predicate ListAccepted(parts: seq<Part>, ops: seq<Node>)
    requires |parts| == |ops| + 1
  {
    && (forall i :: 0 <= i < |parts| ==> Accepted(parts[i]))
    && (forall i :: 0 <= i < |ops| ==> Fits(parts[i], ops[i]))
  }

  /** From position `first` on, nodes and operators alternate as in the list. */
  ghost predicate ListDescribed(nodes: seq<Node>, first: nat, parts: seq<Part>, ops: seq<Node>)
    requires |parts| == |ops| + 1
  {
    && |nodes| == first + |parts| + |ops|
    && (forall i :: 0 <= i < |ops| ==> DescribesBefore(nodes[first + 2 * i], parts[i], ops[i]))
    && (forall i :: 0 <= i < |ops| ==> nodes[first + 2 * i + 1] == ops[i])
    && Describes(nodes[|nodes|-1], parts[|ops|])
  }

  /** The machine after a list read from `pre` on. */
  ghost predicate ReadList(end: Machine, pre: seq<Node>, parts: seq<Part>, ops: seq<Node>)
    requires |parts| == |ops| + 1
  {
    && end.current.Some? && pre <= end.pipeline
    && ListDescribed(end.pipeline + [end.current.value], |pre|, parts, ops)
  }

  lemma {:induction false} FeedList(pre: seq<Node>, parts: seq<Part>, ops: seq<Node>)
    requires ListWritten(parts, ops)
    ensures var end := FeedAll(Machine(Begin, None, map[], pre), ListTokens(parts, ops));
      (end.Some? <==> ListAccepted(parts, ops)) && (end.Some? ==> ReadList(end.value, pre, parts, ops))
    decreases |ops|
  {
    var m := Machine(Begin, None, map[], pre);
    FeedPart(pre, parts[0]);
    if ops == [] {
      LastRead(pre, parts, ops);
    } else {
      var first, rest := PartTokens(parts[0]) + [ShellPrint.OpToken(ops[0])], ListTokens(parts[1..], ops[1..]);
      FirstAccepted(parts, ops);
      FeedLinkPart(pre, parts[0], ops[0]);
      ShellPrint.FeedAllConcat(m, first, rest);
      assert ListTokens(parts, ops) == first + rest;
      hide *;
      var mid := FeedAll(m, first);
      if mid.Some? {
        CommittedIs(mid.value, pre, parts[0], ops[0]);
        FeedList(mid.value.pipeline, parts[1..], ops[1..]);
        var end := FeedAll(mid.value, rest);
        if end.Some? {
          ReadMore(end.value, mid.value, pre, parts, ops);
        }
      }
    }
  }

  lemma CommittedIs(end: Machine, pre: seq<Node>, part: Part, op: Node)
    requires Committed(end, pre, part, op)
    ensures end == Machine(Begin, None, map[], end.pipeline)
  {
  }

  lemma LastRead(pre: seq<Node>, parts: seq<Part>, ops: seq<Node>)
    requires |parts| == 1 && ops == []
    ensures ListTokens(parts, ops) == PartTokens(parts[0]) && (ListAccepted(parts, ops) <==> Accepted(parts[0]))
    ensures forall end :: ReadPart(end, pre, parts[0]) ==> ReadList(end, pre, parts, ops)
  {
    hide Describes, Accepted;
  }

  lemma FirstAccepted(parts: seq<Part>, ops: seq<Node>)
    requires ListWritten(parts, ops) && ops != []
    ensures ListWritten(parts[1..], ops[1..])
    ensures ListAccepted(parts, ops) <==>
      Accepted(parts[0]) && Fits(parts[0], ops[0]) && ListAccepted(parts[1..], ops[1..])
  {
    hide Accepted, Fits, Written;
    var p, o := parts[1..], ops[1..];
    assert forall i :: 0 <= i < |p| ==> p[i] == parts[i+1];
    assert forall i :: 0 <= i < |o| ==> o[i] == ops[i+1];
    if ListAccepted(p, o) && Accepted(parts[0]) && Fits(parts[0], ops[0]) {
      forall i | 0 <= i < |parts| ensures Accepted(parts[i]) {
        assert i > 0 ==> Accepted(p[i-1]);
      }
      forall i | 0 <= i < |ops| ensures Fits(parts[i], ops[i]) {
        assert i > 0 ==> Fits(p[i-1], o[i-1]);
      }
    }
  }

  lemma FeedLinkPart(pre: seq<Node>, part: Part, op: Node)
    requires Written(part) && (op.Pipe? || op.And? || op.Or?) && (part.CdPart? ==> op.And?)
    ensures var end := FeedAll(Machine(Begin, None, map[], pre), PartTokens(part) + [ShellPrint.OpToken(op)]);
      (end.Some? <==> Accepted(part) && Fits(part, op)) && (end.Some? ==> Committed(end.value, pre, part, op))
  {
    var m := Machine(Begin, None, map[], pre);
    FeedPart(pre, part);
    ShellPrint.FeedAllConcat(m, PartTokens(part), [ShellPrint.OpToken(op)]);
    hide Accepted, Fits, Committed, ReadPart, PartTokens, Feed, Written;
    var mid := FeedAll(m, PartTokens(part));
    if mid.Some? {
      FeedOperatorAfter(mid.value, pre, part, op);
      ShellPrint.FeedOne(mid.value, ShellPrint.OpToken(op));
    }
  }

  lemma ReadMore(end: Machine, mid: Machine, pre: seq<Node>, parts: seq<Part>, ops: seq<Node>)
    requires |parts| == |ops| + 1 && ops != [] && Committed(mid, pre, parts[0], ops[0])
    requires ReadList(end, mid.pipeline, parts[1..], ops[1..])
    ensures ReadList(end, pre, parts, ops)
  {
    hide DescribesBefore, Describes;
    var nodes, p, o := end.pipeline + [end.current.value], parts[1..], ops[1..];
    var n := |pre|;
    assert nodes[n] == mid.pipeline[n] && nodes[n+1] == mid.pipeline[n+1];
    forall i | 0 <= i < |ops|
      ensures DescribesBefore(nodes[n + 2 * i], parts[i], ops[i]) && nodes[n + 2 * i + 1] == ops[i]
    {
      if i > 0 {
        assert DescribesBefore(nodes[n + 2 + 2 * (i - 1)], p[i-1], o[i-1]) && nodes[n + 2 + 2 * (i - 1) + 1] == o[i-1];
      }
    }
    assert Describes(nodes[|nodes|-1], p[|o|]);
  }

  /** Commands and `cd`s joined by operators parse exactly when no stream of a command is named twice, the output
      of none goes both to a file and to a pipe, no variable is assigned before a `cd`, and no `cd` has two
      directories. Then every node says what its part says, and the operators stand between them. */
  lemma ListParses(parts: seq<Part>, ops: seq<Node>)
    requires ListWritten(parts, ops)
    ensures var outcome := Parse(ListTokens(parts, ops));
      && (outcome.Parsed? <==> ListAccepted(parts, ops))
      && (outcome.Parsed? ==> ListDescribed(outcome.pipeline, 0, parts, ops))
  {
    FeedList([], parts, ops);
    hide ListAccepted, ListDescribed;
  }

  /** A redirection sign at the very end, without a file, is ignored. */
  lemma DanglingIgnored(tokens: seq<string>, sign: string)
    requires sign in ["<", ">", "2>"] && FeedAll(START, tokens).Some? && FeedAll(START, tokens).value.mode.InCommand?
    requires Parse(tokens).Parsed? && Parse(tokens).pipeline[|Parse(tokens).pipeline|-1].Command?
    ensures Parse(tokens + [sign]) == Parse(tokens)
  {
    var m := FeedAll(START, tokens).value;
    ShellPrint.FeedAllConcat(START, tokens, [sign]);
    ShellPrint.FeedOne(m, sign);
    hide FeedAll;
  }
}
