/** The evaluator of waf-tools/shellcmd.py: `Pipeline.run`. The operating system is an oracle that gives
    the exit status of the k-th process a run starts; opening files and starting processes succeed. */
module ShellRun {
  import opened Common
  import opened ShellParse
  import ShellPrint

  type Oracle = nat -> int

  datatype Source = FromParent | FromFile(name: string) | FromPrevious

  /** What a process is started with. `cwd` is `None` for the directory of the program itself. */
  datatype Launch = Launch(argv: seq<string>, stdin: Source, stdout: Target, stderr: Target,
                           envVars: Option<map<string, string>>, cwd: Option<string>)

  /** `NoValue` is Python's `None`; the exceptions are those `run` does not catch. */
  datatype Result = Exit(code: int) | NoValue | IndexError | JoinError | UnboundLocalError | AssertionError

  /** `os.path.join` of two POSIX paths. */
  function Join(a: string, b: string): string {
    if b != [] && b[0] == '/' then b
    else if a == [] || a[|a|-1] == '/' then a + b
    else a + "/" + b
  }

  function Start(cmd: Node, cwd: string, piped: bool): Launch
    requires cmd.Command?
  {
    Launch(cmd.argv,
           if piped then FromPrevious else if cmd.stdin.Some? then FromFile(cmd.stdin.value) else FromParent,
           cmd.stdout, cmd.stderr, cmd.envVars, if cwd == "." then None else Some(cwd))
  }

  // ----- the meaning of a pipeline: segments joined by && and ||, nested to the right

  /** A segment is what is run and waited for together. `Stuck` is a segment that is never waited for,
      with what comes of the run instead. */
  datatype Chain =
    | Last(segment: seq<Launch>)
    | Link(segment: seq<Launch>, op: Node, rest: Chain)
    | Stuck(segment: seq<Launch>, error: Result)

  /** Splits any list of nodes into segments; a `cd` belongs to the segment it stands in and moves all
      later commands. `begun` is the part of the current segment already seen. */
  function Plan(p: seq<Node>, cwd: string, piped: bool, begun: seq<Launch>): Chain
    decreases |p|
  {
    if p == [] then Stuck(begun, NoValue)
    else if p[0].Chdir? then
      if |p| == 1 then Stuck(begun, IndexError)
      else if !p[1].And? then Stuck(begun, Result.AssertionError)
      else if p[0].dir.None? then Stuck(begun, JoinError)
      else Plan(p[2..], Join(cwd, p[0].dir.value), piped, begun)
    else if !p[0].Command? then Stuck(begun, Result.AssertionError)
    else
      var segment := begun + [Start(p[0], cwd, piped)];
      if |p| == 1 then Last(segment)
      else if p[1].And? || p[1].Or? then Link(segment, p[1], Plan(p[2..], cwd, false, []))
      else Plan(p[2..], cwd, piped || p[1].Pipe?, segment)
  }

  function ChainOf(p: seq<Node>): Chain {
    Plan(p, ".", false, [])
  }

  /** Whether a status settles the rest of the chain. */
  predicate Settles(op: Node, status: int) {
    if op.And? then status != 0 else status == 0
  }

  /** The status of the process started last. */
  function LastStatus(launched: seq<Launch>, st: Oracle): int {
    if launched == [] then 0 else st(|launched|-1)
  }

  /** The result and the processes started, `done` being those of earlier segments. With `verbose`
      the report after a segment uses a variable that was never set. */
  function Meaning(chain: Chain, st: Oracle, verbose: bool, done: seq<Launch>): (Result, seq<Launch>)
    decreases chain
  {
    var all := done + chain.segment;
    match chain
    case Stuck(_, error) => (error, all)
    case Last(_) => (Exit(LastStatus(all, st)), all)
    case Link(_, op, rest) =>
      if verbose then (UnboundLocalError, all)
      else if Settles(op, LastStatus(all, st)) then (Exit(LastStatus(all, st)), all)
      else Meaning(rest, st, verbose, all)
  }

  /** What `run` returns. */
  function RunValue(p: seq<Node>, st: Oracle, verbose: bool): Result {
    Meaning(ChainOf(p), st, verbose, []).0
  }

  /** shellcmd.py:202-211: waits for every process of a segment; the value is the last one's status. */
  method ExecPipedCommands(commands: seq<nat>, st: Oracle) returns (retval: int)
    ensures retval == if commands == [] then 0 else st(commands[|commands|-1])
  {
    var retvals: seq<int> := [];
    for i := 0 to |commands|
      invariant |retvals| == i && forall j :: 0 <= j < i ==> retvals[j] == st(commands[j])
    {
      retvals := retvals + [st(commands[i])];
    }
    retval := 0;
    for i := 0 to |retvals|
      invariant retval == 0 && forall j :: 0 <= j < i ==> retvals[j] == 0
    {
      if retvals[i] != 0 {
        retval := retvals[|retvals|-1];
        break;
      }
    }
  }

  /** shellcmd.py:213-345, for any list of nodes. Also returns what was started, in order. */
  method Run(pipeline0: seq<Node>, verbose: bool, st: Oracle) returns (r: Result, launched: seq<Launch>)
    ensures (r, launched) == Meaning(ChainOf(pipeline0), st, verbose, [])
  {
    var pipeline, cwd, piping := pipeline0, ".", false;
    var pipedCommands: seq<nat> := [];
    launched := [];
    ghost var done: seq<Launch>, begun: seq<Launch> := [], [];
    while pipeline != []
      invariant launched == done + begun
      invariant pipedCommands == seq(|begun|, i requires 0 <= i < |begun| => |done| + i)
      invariant Meaning(ChainOf(pipeline0), st, verbose, [])
        == Meaning(Plan(pipeline, cwd, piping, begun), st, verbose, done)
      decreases |pipeline|
    {
      var node := pipeline[0];
      pipeline := pipeline[1..];
      if node.Chdir? {
        if pipeline == [] {
          return IndexError, launched;
        }
        var nextOp := pipeline[0];
        pipeline := pipeline[1..];
        if !nextOp.And? {
          return Result.AssertionError, launched;
        }
        if node.dir.None? {
          return JoinError, launched;
        }
        cwd := Join(cwd, node.dir.value);
        continue;
      }
      if !node.Command? {
        return Result.AssertionError, launched;
      }
      pipedCommands := pipedCommands + [|launched|];
      launched := launched + [Start(node, cwd, piping)];
      begun := begun + [Start(node, cwd, piping)];
      assert launched == done + begun && pipedCommands[|begun|-1] == |launched| - 1;
      if pipeline == [] {
        var retval := ExecPipedCommands(pipedCommands, st);
        return Exit(retval), launched;
      }
      var nextNode := pipeline[0];
      pipeline := pipeline[1..];
      if nextNode.Pipe? {
        piping := true;
      } else if nextNode.Or? || nextNode.And? {
        var thisRetval := ExecPipedCommands(pipedCommands, st);
        if verbose {
          return UnboundLocalError, launched;
        }
        if Settles(nextNode, thisRetval) {
          return Exit(thisRetval), launched;
        }
        piping := false;
        pipedCommands := [];
        done, begun := done + begun, [];
      }
    }
    return NoValue, launched;
  }

  // ----- what the parser produces can be run

  /** Commands and `cd`s alternate with operators, and a `cd` that is not last is followed by `&&`. */
  predicate Shape(p: seq<Node>)
    decreases |p|
  {
    && p != [] && (p[0].Command? || p[0].Chdir?)
    && (|p| == 1 || (|p| >= 3 && (p[0].Chdir? ==> p[1].And?) && (p[1].Pipe? || p[1].And? || p[1].Or?) && Shape(p[2..])))
  }

  lemma {:induction false} LinksFront(p: seq<Node>)
    requires ShellPrint.LinksOk(p) && p != []
    ensures |p| >= 2 && ShellPrint.LinkOk(p[0], p[1]) && ShellPrint.LinksOk(p[2..])
    decreases |p|
  {
    if |p| > 2 {
      var q := p[..|p|-2];
      LinksFront(q);
      assert |q| >= 2 && q[2..] == p[2..][..|p|-4];
    }
  }

  lemma {:induction false} WellFormedShape(p: seq<Node>)
    requires ShellPrint.WellFormed(p)
    ensures Shape(p)
    decreases |p|
  {
    if |p| > 1 {
      LinksFront(p[..|p|-1]);
      assert p[2..][..|p|-3] == p[..|p|-1][2..];
      WellFormedShape(p[2..]);
    }
  }

  lemma ParsedShape(tokens: seq<string>)
    requires Parse(tokens).Parsed?
    ensures Shape(Parse(tokens).pipeline)
  {
    ShellPrint.ParseWellFormed(tokens);
    WellFormedShape(Parse(tokens).pipeline);
  }

  /** No `cd` is last and every `cd` names a directory. */
  predicate CdsUsable(p: seq<Node>) {
    forall i :: 0 <= i < |p| ==> !UnusableCd(p, i)
  }

  predicate UnusableCd(p: seq<Node>, i: nat)
    requires i < |p|
  {
    p[i].Chdir? && (i == |p| - 1 || p[i].dir.None?)
  }

  predicate Complete(chain: Chain) {
    match chain
    case Last(_) => true
    case Link(_, _, rest) => Complete(rest)
    case Stuck(_, _) => false
  }

  /** Segments have commands in them; one that is never waited for may be empty. */
  predicate Solid(chain: Chain) {
    match chain
    case Last(segment) => segment != []
    case Link(segment, _, rest) => segment != [] && Solid(rest)
    case Stuck(_, error) => !error.Exit? && !error.UnboundLocalError?
  }

  /** A chain that is stuck is stuck at a `cd`. */
  predicate StuckAtCd(chain: Chain) {
    match chain
    case Last(_) => true
    case Link(_, _, rest) => StuckAtCd(rest)
    case Stuck(_, error) => error.IndexError? || error.JoinError?
  }

  lemma {:induction false} PlanSolid(p: seq<Node>, cwd: string, piped: bool, begun: seq<Launch>)
    ensures Solid(Plan(p, cwd, piped, begun))
    decreases |p|
  {
    if |p| > 1 {
      if p[0].Chdir? && p[0].dir.Some? {
        PlanSolid(p[2..], Join(cwd, p[0].dir.value), piped, begun);
      } else if p[0].Command? {
        PlanSolid(p[2..], cwd, false, []);
        PlanSolid(p[2..], cwd, piped || p[1].Pipe?, begun + [Start(p[0], cwd, piped)]);
      }
    }
  }

  /** The rest of a pipeline after its first two nodes has its `cd`s two places earlier. */
  lemma CdsAfterTwo(p: seq<Node>)
    requires |p| >= 3 && !p[1].Chdir?
    ensures CdsUsable(p) <==> !UnusableCd(p, 0) && CdsUsable(p[2..])
  {
    assert forall i :: 0 <= i < |p| - 2 ==> UnusableCd(p[2..], i) == UnusableCd(p, i + 2);
    if CdsUsable(p[2..]) && !UnusableCd(p, 0) {
      forall i | 0 <= i < |p| ensures !UnusableCd(p, i) {
        assert i >= 2 ==> !UnusableCd(p[2..], i - 2);
      }
    }
  }

  lemma {:induction false} PlanComplete(p: seq<Node>, cwd: string, piped: bool, begun: seq<Launch>)
    requires Shape(p)
    ensures StuckAtCd(Plan(p, cwd, piped, begun))
    ensures Complete(Plan(p, cwd, piped, begun)) <==> CdsUsable(p)
    decreases |p|
  {
    if |p| == 1 {
      assert CdsUsable(p) <==> !UnusableCd(p, 0);
    } else {
      CdsAfterTwo(p);
      hide CdsUsable;
      if p[0].Chdir? {
        if p[0].dir.Some? {
          PlanComplete(p[2..], Join(cwd, p[0].dir.value), piped, begun);
        }
      } else if p[1].Pipe? {
        PlanComplete(p[2..], cwd, true, begun + [Start(p[0], cwd, piped)]);
      } else {
        PlanComplete(p[2..], cwd, false, []);
      }
    }
  }

  /** Only statuses of processes that are still to be started matter. */
  lemma {:induction false} LaterOnly(chain: Chain, st: Oracle, st': Oracle, done: seq<Launch>)
    requires Solid(chain) && forall k :: k >= |done| ==> st(k) == st'(k)
    ensures Meaning(chain, st, false, done) == Meaning(chain, st', false, done)
    decreases chain
  {
    if chain.Link? {
      LaterOnly(chain.rest, st, st', done + chain.segment);
    }
  }

  lemma {:induction false} CompleteExits(chain: Chain, st: Oracle, verbose: bool, done: seq<Launch>)
    requires StuckAtCd(chain)
    ensures var r := Meaning(chain, st, verbose, done).0; !r.AssertionError? && !r.NoValue?
    ensures Complete(chain) && !verbose ==> Meaning(chain, st, verbose, done).0.Exit?
    decreases chain
  {
    if chain.Link? {
      CompleteExits(chain.rest, st, verbose, done + chain.segment);
    }
  }

  /** If a `cd` is unusable, some statuses let the evaluation reach it. */
  lemma {:induction false} StuckReached(chain: Chain, done: seq<Launch>) returns (st: Oracle)
    requires Solid(chain) && !Complete(chain)
    ensures !Meaning(chain, st, false, done).0.Exit?
    decreases chain
  {
    if chain.Stuck? {
      return k => 0;
    }
    var all := done + chain.segment;
    var later := StuckReached(chain.rest, all);
    st := k => if k < |all| then if chain.op.And? then 0 else 1 else later(k);
    LaterOnly(chain.rest, st, later, all);
  }

  /** Running what `parse` produced never trips an assertion and never falls through without a value. It
      ends with an exit status whatever the processes return if and only if no `cd` is last and none
      lacks a directory. */
  lemma ParsedRuns(tokens: seq<string>)
    requires Parse(tokens).Parsed?
    ensures forall st: Oracle, verbose ::
        var r := RunValue(Parse(tokens).pipeline, st, verbose); !r.AssertionError? && !r.NoValue?
    ensures (forall st: Oracle :: RunValue(Parse(tokens).pipeline, st, false).Exit?)
      <==> CdsUsable(Parse(tokens).pipeline)
  {
    var p := Parse(tokens).pipeline;
    ParsedShape(tokens);
    PlanSolid(p, ".", false, []);
    PlanComplete(p, ".", false, []);
    hide Plan, Shape, CdsUsable, StuckAtCd, Solid, Complete;
    forall st: Oracle, verbose
      ensures var r := RunValue(p, st, verbose);
        !r.AssertionError? && !r.NoValue? && (CdsUsable(p) && !verbose ==> r.Exit?)
    {
      CompleteExits(ChainOf(p), st, verbose, []);
    }
    if !CdsUsable(p) {
      var st := StuckReached(ChainOf(p), []);
      assert !RunValue(p, st, false).Exit?;
    }
  }

  // ----- verbose runs

  /** A command directly followed by `&&` or `||` comes before any `cd` that cannot be carried out. */
  predicate ReportsEarly(p: seq<Node>) {
    exists i :: 0 <= i < |p| - 1 && ReportAt(p, i) && forall j :: 0 <= j < i ==> !UnusableCd(p, j)
  }

  predicate ReportAt(p: seq<Node>, i: nat)
    requires i + 1 < |p|
  {
    p[i].Command? && (p[i+1].And? || p[i+1].Or?)
  }

  lemma ReportsAfterTwo(p: seq<Node>)
    requires |p| >= 3 && !p[1].Chdir? && !p[1].Command?
    ensures ReportsEarly(p) <==> ReportAt(p, 0) || (!UnusableCd(p, 0) && ReportsEarly(p[2..]))
  {
    var q := p[2..];
    assert forall i :: 0 <= i < |q| ==> UnusableCd(q, i) == UnusableCd(p, i + 2);
    if i :| 0 <= i < |p| - 1 && ReportAt(p, i) && forall j :: 0 <= j < i ==> !UnusableCd(p, j) {
      if i > 0 {
        assert ReportAt(q, i - 2);
      }
    }
    if !UnusableCd(p, 0) && ReportsEarly(q) {
      var i :| 0 <= i < |q| - 1 && ReportAt(q, i) && forall j :: 0 <= j < i ==> !UnusableCd(q, j);
      forall j | 0 <= j < i + 2 ensures !UnusableCd(p, j) {
        assert j >= 2 ==> !UnusableCd(q, j - 2);
      }
      assert ReportAt(p, i + 2);
    }
  }

  lemma {:induction false} PlanLinks(p: seq<Node>, cwd: string, piped: bool, begun: seq<Launch>)
    requires Shape(p)
    ensures Plan(p, cwd, piped, begun).Link? <==> ReportsEarly(p)
    decreases |p|
  {
    if |p| > 1 {
      ReportsAfterTwo(p);
      hide ReportsEarly;
      if p[0].Chdir? {
        if p[0].dir.Some? {
          PlanLinks(p[2..], Join(cwd, p[0].dir.value), piped, begun);
        }
      } else if p[1].Pipe? {
        PlanLinks(p[2..], cwd, true, begun + [Start(p[0], cwd, piped)]);
      }
    }
  }

  /** A verbose run of a parsed pipeline fails on a variable never set, whatever the processes return,
      exactly when it gets to report a segment that is not the last; otherwise it is like a quiet one. */
  lemma VerboseBreaks(tokens: seq<string>, st: Oracle)
    requires Parse(tokens).Parsed?
    ensures var p := Parse(tokens).pipeline;
      && (RunValue(p, st, true).UnboundLocalError? <==> ReportsEarly(p))
      && (!ReportsEarly(p) ==> Meaning(ChainOf(p), st, true, []) == Meaning(ChainOf(p), st, false, []))
  {
    var p := Parse(tokens).pipeline;
    ParsedShape(tokens);
    PlanLinks(p, ".", false, []);
    PlanSolid(p, ".", false, []);
    hide Plan, ReportsEarly, Parse;
  }

  // ----- the result as a right-nested value

  function Ops(chain: Chain): seq<Node> {
    match chain
    case Link(_, op, rest) => [op] + Ops(rest)
    case _ => []
  }

  /** The `&&`s and `||`s that follow commands; the `&&` after a `cd` belongs to the `cd`. */
  function Connectives(p: seq<Node>): seq<Node>
    decreases |p|
  {
    if |p| < 2 then [] else (if p[0].Command? && !p[1].Pipe? then [p[1]] else []) + Connectives(p[2..])
  }

  lemma {:induction false} PlanOps(p: seq<Node>, cwd: string, piped: bool, begun: seq<Launch>)
    requires Shape(p) && CdsUsable(p)
    ensures Ops(Plan(p, cwd, piped, begun)) == Connectives(p)
    decreases |p|
  {
    if |p| > 1 {
      CdsAfterTwo(p);
      assert !UnusableCd(p, 0);
      hide CdsUsable;
      if p[0].Chdir? {
        PlanOps(p[2..], Join(cwd, p[0].dir.value), piped, begun);
      } else if p[1].Pipe? {
        PlanOps(p[2..], cwd, true, begun + [Start(p[0], cwd, piped)]);
      } else {
        PlanOps(p[2..], cwd, false, []);
      }
    } else {
      assert !UnusableCd(p, 0);
    }
  }

  /** The status of segment `i` is that of its last process. */
  function SegmentStatus(chain: Chain, st: Oracle, started: nat, i: nat): int
    decreases chain
  {
    var all := started + |chain.segment|;
    if i > 0 && chain.Link? then SegmentStatus(chain.rest, st, all, i - 1)
    else if all == 0 then 0 else st(all - 1)
  }

  function Statuses(chain: Chain, st: Oracle): Oracle {
    (i: nat) => SegmentStatus(chain, st, 0, i)
  }

  /** Right-nested: `s0 op0 (s1 op1 (s2 ...))`, where a settled operator drops the whole rest. */
  function RightValue(ops: seq<Node>, v: Oracle, i: nat): int {
    if ops == [] || Settles(ops[0], v(i)) then v(i) else RightValue(ops[1..], v, i + 1)
  }

  /** The result of a run is the right-nested value of the segment statuses. */
  lemma {:induction false} RunIsRightNested(chain: Chain, st: Oracle, v: Oracle, done: seq<Launch>, first: nat)
    requires Solid(chain) && Complete(chain)
    requires forall i: nat :: v(first + i) == SegmentStatus(chain, st, |done|, i)
    ensures Meaning(chain, st, false, done).0 == Exit(RightValue(Ops(chain), v, first))
    decreases chain
  {
    assert v(first + 0) == SegmentStatus(chain, st, |done|, 0);
    if chain.Link? {
      forall i: nat ensures v(first + 1 + i) == SegmentStatus(chain.rest, st, |done + chain.segment|, i) {
        assert v(first + (i + 1)) == SegmentStatus(chain, st, |done|, i + 1);
      }
      RunIsRightNested(chain.rest, st, v, done + chain.segment, first + 1);
      assert Ops(chain)[1..] == Ops(chain.rest);
    }
  }

  /** The same for what `parse` produced. */
  lemma ParsedIsRightNested(tokens: seq<string>, st: Oracle)
    requires Parse(tokens).Parsed? && CdsUsable(Parse(tokens).pipeline)
    ensures var p := Parse(tokens).pipeline;
      RunValue(p, st, false) == Exit(RightValue(Connectives(p), Statuses(ChainOf(p), st), 0))
  {
    var p := Parse(tokens).pipeline;
    ParsedShape(tokens);
    PlanSolid(p, ".", false, []);
    PlanComplete(p, ".", false, []);
    PlanOps(p, ".", false, []);
    hide Plan, Parse, CdsUsable;
    RunIsRightNested(ChainOf(p), st, Statuses(ChainOf(p), st), [], 0);
  }

  // ----- comparison with the shell's left-associative AND-OR lists

  /** The status the shell gives to a pipeline, left-associative as in section 2.9.3 of POSIX.1-2017 XCU,
      when the command at position `k` among the commands would return `st(k)`; a run starts them in that
      order. `status` is the status so far. A `|` belongs to its command list: a live node sets the status
      (a `cd` to 0), a node that is skipped keeps it, and the `&&` or `||` after it decides about the next. */
  function ShellValue(p: seq<Node>, st: Oracle, k: nat, status: int, live: bool): int
    decreases |p|
  {
    if p == [] then status
    else
      var now := if !live then status else if p[0].Chdir? then 0 else st(k);
      if |p| == 1 then now
      else ShellValue(p[2..], st, if p[0].Chdir? then k else k + 1, now,
        if p[1].Pipe? then live else !Settles(p[1], now))
  }

  /** The operators on which the shell can skip something: from the first `&&` or `||` that follows a command
      on, all of them; the `&&` after a `cd` before that never skips. */
  function SkippingOps(p: seq<Node>, started: bool): seq<Node>
    decreases |p|
  {
    if |p| < 2 then []
    else if p[1].Pipe? || (p[0].Chdir? && !started) then SkippingOps(p[2..], started)
    else [p[1]] + SkippingOps(p[2..], true)
  }

  predicate OneKind(ops: seq<Node>) {
    forall i :: 0 < i < |ops| ==> ops[i].And? == ops[0].And?
  }

  /** A status that settles every operator to come is the result. */
  lemma {:induction false} SettledStays(p: seq<Node>, st: Oracle, k: nat, status: int)
    requires forall op :: op in SkippingOps(p, true) ==> Settles(op, status)
    ensures ShellValue(p, st, k, status, false) == status
    decreases |p|
  {
    if |p| > 1 {
      assert !p[1].Pipe? ==> p[1] in SkippingOps(p, true);
      SettledStays(p[2..], st, if p[0].Chdir? then k else k + 1, status);
    }
  }

  /** With one kind of operator the shell follows the run. */
  lemma {:induction false} FollowsRun(p: seq<Node>, cwd: string, piped: bool, begun: seq<Launch>, done: seq<Launch>,
                                      st: Oracle, status: int, started: bool)
    requires Shape(p) && CdsUsable(p) && OneKind(SkippingOps(p, started))
    ensures Meaning(Plan(p, cwd, piped, begun), st, false, done).0
      == Exit(ShellValue(p, st, |done| + |begun|, status, true))
    decreases |p|
  {
    assert !UnusableCd(p, 0);
    if |p| > 1 {
      CdsAfterTwo(p);
      var ops := SkippingOps(p, started);
      assert !p[1].Pipe? && (started || p[0].Command?) ==> SkippingOps(p[2..], true) == ops[1..];
      hide CdsUsable;
      if p[0].Chdir? {
        FollowsRun(p[2..], Join(cwd, p[0].dir.value), piped, begun, done, st, 0, started);
      } else {
        var segment := begun + [Start(p[0], cwd, piped)];
        var now := st(|done| + |begun|);
        if p[1].Pipe? {
          FollowsRun(p[2..], cwd, true, segment, done, st, now, started);
        } else if Settles(p[1], now) {
          SettledStays(p[2..], st, |done| + |begun| + 1, now);
        } else {
          FollowsRun(p[2..], cwd, false, [], done + segment, st, now, true);
        }
      }
    }
  }

  /** Once something is live again, commands that return 2 make 2 the result. */
  lemma {:induction false} Revived(p: seq<Node>, st: Oracle, k: nat, status: int, live: bool)
    requires Shape(p) && CdsUsable(p) && forall j :: j >= k ==> st(j) == 2
    requires live || status == 2 || exists op :: op in SkippingOps(p, true) && !Settles(op, status)
    ensures ShellValue(p, st, k, status, live) == 2
    decreases |p|
  {
    assert !UnusableCd(p, 0);
    if |p| > 1 {
      CdsAfterTwo(p);
      hide CdsUsable;
      var now := if !live then status else if p[0].Chdir? then 0 else st(k);
      Revived(p[2..], st, if p[0].Chdir? then k else k + 1, now, if p[1].Pipe? then live else !Settles(p[1], now));
    }
  }

  /** With both kinds there are statuses on which the two differ: the first operator is settled and the rest
      returns 2, so the run stops there and the shell goes on at the first operator of the other kind. */
  lemma {:induction false} Differs(p: seq<Node>, cwd: string, piped: bool, begun: seq<Launch>) returns (st: Oracle)
    requires Shape(p) && CdsUsable(p) && !OneKind(SkippingOps(p, false))
    ensures Meaning(Plan(p, cwd, piped, begun), st, false, []).0 != Exit(ShellValue(p, st, |begun|, 0, true))
    decreases |p|
  {
    CdsAfterTwo(p);
    assert !UnusableCd(p, 0);
    if p[0].Chdir? {
      st := Differs(p[2..], Join(cwd, p[0].dir.value), piped, begun);
    } else if p[1].Pipe? {
      st := Differs(p[2..], cwd, true, begun + [Start(p[0], cwd, piped)]);
      assert p[2..] != [];
    } else {
      var first, n, ops := if p[1].And? then 1 else 0, |begun| + 1, SkippingOps(p, false);
      st := k => if k < n then first else 2;
      var i :| 0 < i < |ops| && ops[i].And? != ops[0].And?;
      assert ops[i] in SkippingOps(p[2..], true) && !Settles(ops[i], first);
      Revived(p[2..], st, n, first, false);
    }
  }

  /** `run` gives a parsed pipeline the value the shell gives it, for all statuses of its processes, exactly
      when the operators on which the shell can skip something are of one kind. */
  lemma AgreesWithShell(tokens: seq<string>)
    requires Parse(tokens).Parsed? && CdsUsable(Parse(tokens).pipeline)
    ensures var p := Parse(tokens).pipeline;
      (forall st: Oracle :: RunValue(p, st, false) == Exit(ShellValue(p, st, 0, 0, true)))
        <==> OneKind(SkippingOps(p, false))
  {
    var p := Parse(tokens).pipeline;
    ParsedShape(tokens);
    hide Plan, Parse, CdsUsable, Shape, OneKind, ShellValue, SkippingOps;
    if OneKind(SkippingOps(p, false)) {
      forall st: Oracle ensures RunValue(p, st, false) == Exit(ShellValue(p, st, 0, 0, true)) {
        FollowsRun(p, ".", false, [], [], st, 0, false);
      }
    } else {
      var st := Differs(p, ".", false, []);
      assert RunValue(p, st, false) != Exit(ShellValue(p, st, 0, 0, true));
    }
  }

  const MIXED := ["a", "&&", "b", "||", "c"]

  const MIXED_CD := ["a", "||", "cd", "x", "&&", "b"]

  function Plain(name: string): Node {
    Command(name, [name], None, Inherit, Inherit, None)
  }

  lemma PlainWord(pre: seq<Node>, c: char)
    requires 'a' <= c <= 'c'
    ensures Feed(Machine(Begin, None, map[], pre), [c]) == Some(Machine(InCommand, Some(Plain([c])), map[], pre))
  {
    assert FirstEquals([c]) == 1;
  }

  lemma OperatorAfter(pre: seq<Node>, name: string, op: Node)
    requires op.And? || op.Or?
    ensures Feed(Machine(InCommand, Some(Plain(name)), map[], pre), if op.And? then "&&" else "||")
            == Some(Machine(Begin, None, map[], pre + [Plain(name)] + [op]))
  {
  }

  lemma CdAnd(pre: seq<Node>)
    ensures var m := Machine(Begin, None, map[], pre); var cd := Machine(InChdir, Some(Chdir(None)), map[], pre);
      && Feed(m, "cd") == Some(cd) && Feed(cd, "x") == Some(cd.(current := Some(Chdir(Some("x")))))
      && Feed(cd.(current := Some(Chdir(Some("x")))), "&&")
        == Some(Machine(Begin, None, map[], pre + [Chdir(Some("x"))] + [And]))
  {
    assert FirstEquals("cd") == 2;
  }

  lemma MixedParses()
    ensures Parse(MIXED) == Parsed([Plain("a"), And, Plain("b"), Or, Plain("c")])
  {
    hide Feed, Plain;
    var p1, p2 := [Plain("a"), And], [Plain("a"), And, Plain("b"), Or];
    PlainWord([], 'a');
    OperatorAfter([], "a", And);
    assert [] + [Plain("a")] + [And] == p1;
    PlainWord(p1, 'b');
    OperatorAfter(p1, "b", Or);
    assert p1 + [Plain("b")] + [Or] == p2;
    PlainWord(p2, 'c');
    assert MIXED[1..][1..][1..][1..] == ["c"];
    ShellPrint.FeedOne(Machine(Begin, None, map[], p2), "c");
    assert FeedAll(START, MIXED) == Some(Machine(InCommand, Some(Plain("c")), map[], p2));
  }

  lemma MixedCdParses()
    ensures Parse(MIXED_CD) == Parsed([Plain("a"), Or, Chdir(Some("x")), And, Plain("b")])
  {
    hide Feed, Plain;
    var p1, p2 := [Plain("a"), Or], [Plain("a"), Or, Chdir(Some("x")), And];
    PlainWord([], 'a');
    OperatorAfter([], "a", Or);
    assert [] + [Plain("a")] + [Or] == p1;
    CdAnd(p1);
    assert p1 + [Chdir(Some("x"))] + [And] == p2;
    PlainWord(p2, 'b');
    assert MIXED_CD[1..][1..][1..][1..][1..] == ["b"];
    ShellPrint.FeedOne(Machine(Begin, None, map[], p2), "b");
    assert FeedAll(START, MIXED_CD) == Some(Machine(InCommand, Some(Plain("b")), map[], p2));
  }

  /** `a && b || c` with a failing `a`: the run ends with the status of `a`, the shell goes on to `c`.
      With `verbose` the run fails. */
  lemma MixedExample(st: Oracle)
    requires st(0) == 1
    ensures Parse(MIXED).Parsed?
    ensures var p := Parse(MIXED).pipeline;
      && CdsUsable(p) && RunValue(p, st, false) == Exit(1) && ShellValue(p, st, 0, 0, true) == st(2)
      && RunValue(p, st, true) == UnboundLocalError
  {
    MixedParses();
    hide Parse;
    var p := [Plain("a"), And, Plain("b"), Or, Plain("c")];
    assert p[2..] == [Plain("b"), Or, Plain("c")] && p[2..][2..] == [Plain("c")];
  }

  /** `a || cd x && b` with a successful `a`: the run ends with status 0, the shell goes on to `b`, although
      `||` is the only operator that follows a command. */
  lemma MixedCdExample(st: Oracle)
    requires st(0) == 0
    ensures Parse(MIXED_CD).Parsed?
    ensures var p := Parse(MIXED_CD).pipeline;
      && CdsUsable(p) && RunValue(p, st, false) == Exit(0) && ShellValue(p, st, 0, 0, true) == st(1)
  {
    MixedCdParses();
    hide Parse;
    var p := [Plain("a"), Or, Chdir(Some("x")), And, Plain("b")];
    assert p[2..] == [Chdir(Some("x")), And, Plain("b")] && p[2..][2..] == [Plain("b")];
  }
}
