/** What `Pipeline.run` of waf-tools/shellcmd.py starts, read off the pipeline: which commands, with what
    input and in which directory, and after which of them the run ends. */
module ShellLaunch {
  import opened Common
  import opened ShellParse
  import opened ShellRun

  /** The positions of the commands before position `i`; nodes stand at even positions. */
  function Commands(p: seq<Node>, i: nat): seq<nat>
    requires i <= |p| + 1
  {
    if i < 2 then [] else Commands(p, i - 2) + if p[i-2].Command? then [i - 2] else []
  }

  /** The positions of all commands of a pipeline that ends with a node. */
  function AllCommands(p: seq<Node>): seq<nat> {
    Commands(p, if |p| % 2 == 1 then |p| + 1 else |p|)
  }

  /** The directories named by the `cd`s before position `i`, joined one after the other. */
  function Directory(p: seq<Node>, i: nat): string
    requires i <= |p| + 1
  {
    if i < 2 then "."
    else
      var before := Directory(p, i - 2);
      if p[i-2].Chdir? && p[i-2].dir.Some? then Join(before, p[i-2].dir.value) else before
  }

  predicate CdBefore(p: seq<Node>, i: nat)
    requires i <= |p| + 1
  {
    i >= 2 && (p[i-2].Chdir? || CdBefore(p, i - 2))
  }

  /** The last operator before position `i`, not counting the `&&` of a `cd`, is `|`. */
  predicate PipedInto(p: seq<Node>, i: nat)
    requires i <= |p|
  {
    i >= 2 && if p[i-2].Chdir? then PipedInto(p, i - 2) else p[i-1].Pipe?
  }

  /** The process is started with what the command at position `i` says. */
  predicate StartedAs(p: seq<Node>, i: nat, l: Launch) {
    && i < |p| && p[i].Command?
    && l.argv == p[i].argv && l.stdout == p[i].stdout && l.stderr == p[i].stderr && l.envVars == p[i].envVars
    && (l.stdin.FromPrevious? <==> PipedInto(p, i))
    && (!PipedInto(p, i) ==> l.stdin == if p[i].stdin.Some? then FromFile(p[i].stdin.value) else FromParent)
    && (l.cwd.Some? <==> CdBefore(p, i))
    && (CdBefore(p, i) ==> l.cwd == Some(Directory(p, i)))
  }

  /** The processes are the commands at these positions, in order. */
  predicate AllStartedAs(p: seq<Node>, at: seq<nat>, launched: seq<Launch>) {
    |launched| <= |at| && forall k :: 0 <= k < |launched| ==> StartedAs(p, at[k], launched[k])
  }

  // ----- the directory is the program's own only without a `cd`

  /** `os.path.join` of POSIX paths: an absolute path stands for itself, a relative one follows the first after
      exactly one "/", which may be there already. */
  lemma JoinIs(a: string, b: string)
    ensures b != [] && b[0] == '/' ==> Join(a, b) == b
    ensures (b == [] || b[0] != '/') && a != [] && a[|a|-1] != '/' ==>
      Join(a, b) == a + "/" + b && Join(a + "/", b) == a + "/" + b
    ensures (b == [] || b[0] != '/') ==> Join("/", b) == "/" + b && Join("", b) == b
  {
  }

  lemma JoinNotDot(a: string, b: string)
    requires a != []
    ensures Join(a, b) != [] && Join(a, b) != "."
  {
    if b != [] && b[0] == '/' {
    } else if a[|a|-1] == '/' {
      assert (a + b)[|a|-1] == '/';
    } else {
      assert (a + "/" + b)[|a|] == '/';
    }
  }

  lemma {:induction false} DotWithoutCd(p: seq<Node>, i: nat)
    requires i <= |p| + 1 && forall j :: 0 <= j < i - 1 && p[j].Chdir? ==> p[j].dir.Some?
    ensures Directory(p, i) != [] && (Directory(p, i) == "." <==> !CdBefore(p, i))
    decreases i
  {
    if i >= 2 {
      DotWithoutCd(p, i - 2);
      if p[i-2].Chdir? {
        JoinNotDot(Directory(p, i - 2), p[i-2].dir.value);
      }
    }
  }

  lemma StartIsStartedAs(p: seq<Node>, i: nat, cwd: string, piped: bool)
    requires i < |p| && p[i].Command? && cwd == Directory(p, i) && piped == PipedInto(p, i)
    requires cwd == "." <==> !CdBefore(p, i)
    ensures StartedAs(p, i, Start(p[i], cwd, piped))
  {
  }

  // ----- the processes of a run

  /** A run that has got to position `i`: what has been started so far, and where. */
  ghost predicate Reached(p: seq<Node>, i: nat, cwd: string, piped: bool, started: seq<Launch>) {
    && i % 2 == 0 && i <= |p|
    && (forall j :: 0 <= j < i && p[j].Chdir? ==> p[j].dir.Some?)
    && cwd == Directory(p, i) && piped == PipedInto(p, i)
    && |started| == |Commands(p, i)| && AllStartedAs(p, Commands(p, i), started)
  }

  lemma ReachCd(p: seq<Node>, i: nat, cwd: string, piped: bool, started: seq<Launch>)
    requires Reached(p, i, cwd, piped, started) && i + 1 < |p| && p[i].Chdir? && p[i].dir.Some? && !p[i+1].Chdir?
    ensures Reached(p, i + 2, Join(cwd, p[i].dir.value), piped, started)
  {
    hide AllStartedAs;
    assert Commands(p, i + 2) == Commands(p, i);
  }

  lemma ReachCommand(p: seq<Node>, i: nat, cwd: string, piped: bool, started: seq<Launch>)
    requires Reached(p, i, cwd, piped, started) && i < |p| && p[i].Command?
    ensures AllStartedAs(p, Commands(p, i + 1 + 1), started + [Start(p[i], cwd, piped)])
    ensures |Commands(p, i + 2)| == |started| + 1 && Commands(p, i + 2)[|started|] == i
    ensures i + 1 < |p| && !p[i+1].Chdir? ==> Reached(p, i + 2, cwd, p[i+1].Pipe?, started + [Start(p[i], cwd, piped)])
  {
    DotWithoutCd(p, i);
    StartIsStartedAs(p, i, cwd, piped);
    hide StartedAs, Start;
    assert Commands(p, i + 2) == Commands(p, i) + [i];
  }

  lemma {:induction false} CommandsPrefix(p: seq<Node>, i: nat, j: nat)
    requires i <= j <= |p| + 1 && i % 2 == j % 2
    ensures Commands(p, i) <= Commands(p, j)
    decreases j
  {
    if i < j {
      CommandsPrefix(p, i, j - 2);
    }
  }

  /** All positions of commands, and only those, in order. */
  lemma {:induction false} CommandsExact(p: seq<Node>, i: nat)
    requires i <= |p| + 1 && forall j :: 0 <= j < |p| && j < i - 1 && p[j].Command? ==> j % 2 == i % 2
    ensures forall j :: j in Commands(p, i) <==> 0 <= j < |p| && j < i - 1 && p[j].Command?
    ensures forall k, m :: 0 <= k < m < |Commands(p, i)| ==> Commands(p, i)[k] < Commands(p, i)[m]
    decreases i
  {
    if i >= 2 {
      CommandsExact(p, i - 2);
      assert i >= 3 ==> !p[i-3].Command?;
      var before := Commands(p, i - 2);
      assert forall m :: 0 <= m < |before| ==> before[m] in before;
    }
  }

  /** After this status the run goes on behind the command at position `i`. */
  predicate GoesOn(p: seq<Node>, i: nat, status: int) {
    i + 1 < |p| && (p[i+1].Pipe? || !Settles(p[i+1], status))
  }

  predicate AllGoOn(p: seq<Node>, at: seq<nat>, n: int, st: Oracle) {
    n <= |at| && forall k :: 0 <= k < n ==> GoesOn(p, at[k], st(k))
  }

  /** Where the run ended with this result: at the last command, at an operator settled by the status, at an
      operator whose report fails, or at a `cd` that cannot be carried out. */
  ghost predicate Ends(p: seq<Node>, at: seq<nat>, n: nat, st: Oracle, r: Result) {
    n <= |at| && match r
    case Exit(code) =>
      && n > 0 && AllGoOn(p, at, n - 1, st) && code == st(n - 1)
      && (at[n-1] + 1 == |p| || (at[n-1] + 1 < |p| && !p[at[n-1]+1].Pipe? && Settles(p[at[n-1]+1], code)))
    case UnboundLocalError =>
      n > 0 && AllGoOn(p, at, n - 1, st) && at[n-1] + 1 < |p| && (p[at[n-1]+1].And? || p[at[n-1]+1].Or?)
    case IndexError => AllGoOn(p, at, n, st) && n == |at| && p != [] && p[|p|-1].Chdir?
    case JoinError =>
      AllGoOn(p, at, n, st) && exists j :: 0 <= j < |p| && p[j].Chdir? && p[j].dir.None? && Commands(p, j) == at[..n]
    case _ => false
  }

  /** The run ended in `r` having started `l`. */
  ghost predicate RunAsWritten(p: seq<Node>, r: Result, l: seq<Launch>, st: Oracle) {
    AllStartedAs(p, AllCommands(p), l) && Ends(p, AllCommands(p), |l|, st, r)
  }

  /** A run that has got to position `i` and every process so far let it go on. */
  ghost predicate OnItsWay(p: seq<Node>, i: nat, cwd: string, piped: bool, started: seq<Launch>, st: Oracle) {
    && |p| % 2 == 1 && i < |p| && Shape(p[i..])
    && Reached(p, i, cwd, piped, started) && AllGoOn(p, Commands(p, i), |started|, st)
  }

  lemma EndsAtCd(p: seq<Node>, i: nat, cwd: string, piped: bool, started: seq<Launch>, st: Oracle)
    requires OnItsWay(p, i, cwd, piped, started, st) && UnusableCd(p, i)
    ensures RunAsWritten(p, if i == |p| - 1 then IndexError else JoinError, started, st)
  {
    hide StartedAs, GoesOn, Shape;
    CommandsPrefix(p, i, |p| + 1);
  }

  lemma EndsAtCommand(p: seq<Node>, i: nat, cwd: string, piped: bool, started: seq<Launch>, st: Oracle, r: Result)
    requires OnItsWay(p, i, cwd, piped, started, st) && p[i].Command?
    requires r == Exit(st(|started|)) || r == UnboundLocalError
    requires r.UnboundLocalError? ==> i + 1 < |p| && (p[i+1].And? || p[i+1].Or?)
    requires r.Exit? && i + 1 < |p| ==> !p[i+1].Pipe? && Settles(p[i+1], r.code)
    ensures RunAsWritten(p, r, started + [Start(p[i], cwd, piped)], st)
  {
    ReachCommand(p, i, cwd, piped, started);
    CommandsPrefix(p, i, i + 2);
    CommandsPrefix(p, i + 2, |p| + 1);
    hide StartedAs, GoesOn, Start, Reached, Shape, Settles, Commands;
  }

  lemma OnAfterCd(p: seq<Node>, i: nat, cwd: string, piped: bool, started: seq<Launch>, st: Oracle)
    requires OnItsWay(p, i, cwd, piped, started, st) && p[i].Chdir? && !UnusableCd(p, i)
    ensures i + 2 < |p| && OnItsWay(p, i + 2, Join(cwd, p[i].dir.value), piped, started, st)
  {
    assert p[i..][2..] == p[i+2..];
    ReachCd(p, i, cwd, piped, started);
    CommandsPrefix(p, i, i + 2);
    hide Reached, GoesOn;
  }

  lemma OnAfterCommand(p: seq<Node>, i: nat, cwd: string, piped: bool, started: seq<Launch>, st: Oracle)
    requires OnItsWay(p, i, cwd, piped, started, st) && p[i].Command? && GoesOn(p, i, st(|started|))
    ensures i + 2 < |p| && OnItsWay(p, i + 2, cwd, p[i+1].Pipe?, started + [Start(p[i], cwd, piped)], st)
  {
    assert p[i..][2..] == p[i+2..];
    ReachCommand(p, i, cwd, piped, started);
    CommandsPrefix(p, i, i + 2);
    hide Reached, Settles, StartedAs, Commands, Start;
  }

  /** One step of splitting the rest of a pipeline. */
  lemma PlanAt(p: seq<Node>, i: nat, cwd: string, piped: bool, begun: seq<Launch>)
    requires i < |p| && Shape(p[i..])
    ensures p[i].Command? || p[i].Chdir?
    ensures i + 1 < |p| ==> i + 2 < |p| && p[i..][2..] == p[i+2..] && (p[i+1].Pipe? || p[i+1].And? || p[i+1].Or?)
    ensures p[i].Chdir? ==>
      Plan(p[i..], cwd, piped, begun)
      == if i + 1 == |p| then Stuck(begun, IndexError)
         else if p[i].dir.None? then Stuck(begun, JoinError)
         else Plan(p[i+2..], Join(cwd, p[i].dir.value), piped, begun)
    ensures p[i].Command? ==> var segment := begun + [Start(p[i], cwd, piped)];
      Plan(p[i..], cwd, piped, begun)
      == if i + 1 == |p| then Last(segment)
         else if p[i+1].Pipe? then Plan(p[i+2..], cwd, true, segment)
         else Link(segment, p[i+1], Plan(p[i+2..], cwd, false, []))
  {
    hide Start;
    assert i + 1 < |p| ==> p[i..][2..] == p[i+2..];
  }

  /** Going through the pipeline from position `i` on ends as written. */
  ghost predicate EndsAsWritten(p: seq<Node>, chain: Chain, done: seq<Launch>, st: Oracle, verbose: bool) {
    var (r, l) := Meaning(chain, st, verbose, done);
    RunAsWritten(p, r, l, st) && (r.UnboundLocalError? ==> verbose)
  }

  lemma {:induction false} RunFrom(p: seq<Node>, i: nat, cwd: string, piped: bool, begun: seq<Launch>,
                                   done: seq<Launch>, st: Oracle, verbose: bool)
    requires OnItsWay(p, i, cwd, piped, done + begun, st)
    ensures EndsAsWritten(p, Plan(p[i..], cwd, piped, begun), done, st, verbose)
    decreases |p| - i, 1
  {
    PlanAt(p, i, cwd, piped, begun);
    hide *;
    if p[i].Command? {
      RunFromCommand(p, i, cwd, piped, begun, done, st, verbose);
    } else {
      RunFromCd(p, i, cwd, piped, begun, done, st, verbose);
    }
  }

  lemma {:induction false} RunFromCd(p: seq<Node>, i: nat, cwd: string, piped: bool, begun: seq<Launch>,
                                     done: seq<Launch>, st: Oracle, verbose: bool)
    requires OnItsWay(p, i, cwd, piped, done + begun, st) && p[i].Chdir?
    ensures EndsAsWritten(p, Plan(p[i..], cwd, piped, begun), done, st, verbose)
    decreases |p| - i, 0
  {
    PlanAt(p, i, cwd, piped, begun);
    if UnusableCd(p, i) {
      EndsAtCd(p, i, cwd, piped, done + begun, st);
      hide Plan, OnItsWay, RunAsWritten;
    } else {
      OnAfterCd(p, i, cwd, piped, done + begun, st);
      hide *;
      RunFrom(p, i + 2, Join(cwd, p[i].dir.value), piped, begun, done, st, verbose);
    }
  }

  lemma {:induction false} RunFromCommand(p: seq<Node>, i: nat, cwd: string, piped: bool, begun: seq<Launch>,
                                          done: seq<Launch>, st: Oracle, verbose: bool)
    requires OnItsWay(p, i, cwd, piped, done + begun, st) && p[i].Command?
    ensures EndsAsWritten(p, Plan(p[i..], cwd, piped, begun), done, st, verbose)
    decreases |p| - i, 0
  {
    PlanAt(p, i, cwd, piped, begun);
    hide *;
    var segment := begun + [Start(p[i], cwd, piped)];
    if i + 1 == |p| {
      EndsHere(p, i, cwd, piped, begun, done, st, verbose, Last(segment));
    } else if p[i+1].Pipe? {
      Advance(p, i, cwd, piped, begun, done, st);
      RunFrom(p, i + 2, cwd, true, segment, done, st, verbose);
    } else if verbose || Settles(p[i+1], st(|done + begun|)) {
      EndsHere(p, i, cwd, piped, begun, done, st, verbose, Link(segment, p[i+1], Plan(p[i+2..], cwd, false, [])));
    } else {
      Advance(p, i, cwd, piped, begun, done, st);
      RunFrom(p, i + 2, cwd, false, [], done + segment, st, verbose);
      LinkGoesOn(p, segment, p[i+1], Plan(p[i+2..], cwd, false, []), done, st);
    }
  }

  lemma Advance(p: seq<Node>, i: nat, cwd: string, piped: bool, begun: seq<Launch>, done: seq<Launch>, st: Oracle)
    requires OnItsWay(p, i, cwd, piped, done + begun, st) && p[i].Command? && i + 1 < |p|
    requires p[i+1].Pipe? || !Settles(p[i+1], st(|done + begun|))
    ensures var after := done + (begun + [Start(p[i], cwd, piped)]);
      && |after| == |done + begun| + 1 && i + 2 < |p|
      && OnItsWay(p, i + 2, cwd, p[i+1].Pipe?, after, st) && OnItsWay(p, i + 2, cwd, p[i+1].Pipe?, after + [], st)
  {
    OnAfterCommand(p, i, cwd, piped, done + begun, st);
    hide *;
    var after := done + (begun + [Start(p[i], cwd, piped)]);
    assert done + begun + [Start(p[i], cwd, piped)] == after == after + [];
  }

  lemma EndsHere(p: seq<Node>, i: nat, cwd: string, piped: bool, begun: seq<Launch>, done: seq<Launch>, st: Oracle,
                 verbose: bool, chain: Chain)
    requires OnItsWay(p, i, cwd, piped, done + begun, st) && p[i].Command?
    requires chain.segment == begun + [Start(p[i], cwd, piped)]
    requires chain.Last? ==> i + 1 == |p|
    requires chain.Link? ==> i + 1 < |p| && chain.op == p[i+1] && (p[i+1].And? || p[i+1].Or?)
    requires chain.Link? ==> verbose || Settles(p[i+1], st(|done + begun|))
    requires !chain.Stuck?
    ensures EndsAsWritten(p, chain, done, st, verbose)
  {
    var status := st(|done + begun|);
    assert done + begun + [Start(p[i], cwd, piped)] == done + chain.segment;
    var r := if chain.Link? && verbose then UnboundLocalError else Exit(status);
    EndsAtCommand(p, i, cwd, piped, done + begun, st, r);
    hide RunAsWritten, Start, OnItsWay, Settles;
  }

  lemma LinkGoesOn(p: seq<Node>, segment: seq<Launch>, op: Node, rest: Chain, done: seq<Launch>, st: Oracle)
    requires segment != [] && !Settles(op, st(|done + segment| - 1))
    requires EndsAsWritten(p, rest, done + segment, st, false)
    ensures EndsAsWritten(p, Link(segment, op, rest), done, st, false)
  {
    hide RunAsWritten;
  }

  /** What running a parsed pipeline starts, and where it ends. */
  lemma ParsedRun(tokens: seq<string>, st: Oracle, verbose: bool)
    requires Parse(tokens).Parsed?
    ensures var p := Parse(tokens).pipeline; var (r, l) := Meaning(ChainOf(p), st, verbose, []);
      RunAsWritten(p, r, l, st) && (r.UnboundLocalError? ==> verbose)
  {
    var p := Parse(tokens).pipeline;
    ParsedShape(tokens);
    ShapeIsOdd(p);
    var none: seq<Launch> := [];
    assert p[0..] == p && none + none == none && OnItsWay(p, 0, ".", false, none, st);
    RunFrom(p, 0, ".", false, none, none, st, verbose);
  }

  lemma {:induction false} ShapeIsOdd(p: seq<Node>)
    requires Shape(p)
    ensures |p| % 2 == 1 && forall j :: 0 <= j < |p| && p[j].Command? ==> j % 2 == 0
    decreases |p|
  {
    if |p| > 1 {
      ShapeIsOdd(p[2..]);
      assert forall j :: 2 <= j < |p| ==> p[j] == p[2..][j-2];
    }
  }

  /** The positions are those of all the commands, in order. */
  lemma CommandsInOrder(tokens: seq<string>)
    requires Parse(tokens).Parsed?
    ensures var p := Parse(tokens).pipeline; var at := AllCommands(p);
      && (forall j :: j in at <==> 0 <= j < |p| && p[j].Command?)
      && (forall k, m :: 0 <= k < m < |at| ==> at[k] < at[m])
  {
    var p := Parse(tokens).pipeline;
    ParsedShape(tokens);
    ShapeIsOdd(p);
    hide Parse, Shape;
    CommandsExact(p, |p| + 1);
  }


  /** Parsing and running a command line: the processes are the commands in order, each with its own arguments,
      streams, variables and directory, up to the one after which the run ends. */
  method ParseAndRun(tokens: seq<string>, verbose: bool, st: Oracle)
    returns (ok: bool, r: Result, launched: seq<Launch>)
    ensures ok <==> Parse(tokens).Parsed?
    ensures ok ==> RunAsWritten(Parse(tokens).pipeline, r, launched, st) && (r.UnboundLocalError? ==> verbose)
  {
    var pipeline := new Pipeline();
    ok := pipeline.ParseTokens(tokens);
    r, launched := NoValue, [];
    if ok {
      r, launched := Run(pipeline.pipeline, verbose, st);
      ParsedRun(tokens, st, verbose);
    }
  }
}
