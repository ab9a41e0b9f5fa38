/** What `parse_patchset` of utils/check-style.py makes of any file, line by line: which lines are chunk headers,
    when it fails, and which file names and how many chunks each patch gets. */
module PatchLines {
  import opened Common
  import opened Patches

  // ----- chunk headers

  lemma NumberThenFrom(s: string, sep: string) returns (d: string)
    requires NumberThen(s, sep).Some?
    ensures Digits(d) && s == d + (sep + NumberThen(s, sep).value.1) && NumberThen(s, sep).value.0 == Number(d)
  {
    var n := DigitsPrefix(s);
    d := s[..n];
    assert s == d + s[n..] && s[n..] == sep + s[n+|sep|..];
  }

  function HeaderLine(a: string, m: string, b: string, n: string, rest: string): string {
    "@@ -" + (a + ("," + (m + (" +" + (b + ("," + (n + (" @@" + rest))))))))
  }

  lemma NumbersIn(a: string, m: string, b: string, n: string, rest: string)
    requires Digits(a) && Digits(m) && Digits(b) && Digits(n)
    ensures HeaderNumbers(HeaderLine(a, m, b, n, rest)) == Some((Number(a), Number(m), Number(b), Number(n)))
  {
    var s4 := n + (" @@" + rest);
    var s3 := b + ("," + s4);
    var s2 := m + (" +" + s3);
    var s1 := a + ("," + s2);
    NumberThenIs(a, ",", s2);
    NumberThenIs(m, " +", s3);
    NumberThenIs(b, ",", s4);
    NumberThenIs(n, " @@", rest);
    hide Digits, Number, NumberThen;
    var line := "@@ -" + s1;
    assert HeaderLine(a, m, b, n, rest) == line;
    assert line[4..] == s1 && StartsWith(line, "@@ -");
    hide StartsWith;
  }

  lemma NumbersOnly(line: string) returns (a: string, m: string, b: string, n: string, rest: string)
    requires HeaderNumbers(line).Some?
    ensures Digits(a) && Digits(m) && Digits(b) && Digits(n) && line == HeaderLine(a, m, b, n, rest)
  {
    assert StartsWith(line, "@@ -") && line == line[..4] + line[4..];
    hide StartsWith, Digits, Number, NumberThen;
    var s1 := line[4..];
    a := NumberThenFrom(s1, ",");
    var s2 := NumberThen(s1, ",").value.1;
    m := NumberThenFrom(s2, " +");
    var s3 := NumberThen(s2, " +").value.1;
    b := NumberThenFrom(s3, ",");
    var s4 := NumberThen(s3, ",").value.1;
    n := NumberThenFrom(s4, " @@");
    rest := NumberThen(s4, " @@").value.1;
  }

  /** A line is a chunk header if and only if it has its four numbers, as no header begins like a file name. */
  lemma HeadersAre(line: string)
    ensures Classify(line).ChunkHead? <==> HeaderNumbers(line).Some?
    ensures HeaderNumbers(line).Some? ==>
      Classify(line) == ChunkHead(HeaderNumbers(line).value.0, HeaderNumbers(line).value.2)
  {
    if HeaderNumbers(line).Some? {
      assert StartsWith(line, "@@ -") && line[..4][0] == line[0] == '@';
      assert !StartsWith(line, "--- ") && !StartsWith(line, "+++ ");
    }
    hide HeaderNumbers, StartsWith;
  }

  /** Four numbers in their places make a line a chunk header, whatever follows the second `@@`. */
  lemma HeaderRead(a: string, m: string, b: string, n: string, rest: string)
    requires Digits(a) && Digits(m) && Digits(b) && Digits(n)
    ensures Classify(HeaderLine(a, m, b, n, rest)) == ChunkHead(Number(a), Number(b))
  {
    hide *;
    NumbersIn(a, m, b, n, rest);
    HeadersAre(HeaderLine(a, m, b, n, rest));
  }

  /** No other line is a chunk header. */
  lemma HeaderOnly(line: string) returns (a: string, m: string, b: string, n: string, rest: string)
    requires Classify(line).ChunkHead?
    ensures Digits(a) && Digits(m) && Digits(b) && Digits(n) && line == HeaderLine(a, m, b, n, rest)
  {
    hide *;
    HeadersAre(line);
    a, m, b, n, rest := NumbersOnly(line);
  }

  // ----- when reading fails

  predicate FileBefore(lines: seq<string>, k: nat)
    requires k <= |lines|
  {
    exists j :: 0 <= j < k && Classify(lines[j]).SrcFile?
  }

  predicate ChunkBefore(lines: seq<string>, k: nat)
    requires k <= |lines|
  {
    exists j :: 0 <= j < k && Classify(lines[j]).ChunkHead?
  }

  /** The second name needs a patch to go to, and so does a chunk; a body line needs a chunk. */
  predicate Fits(kind: Class, file: bool, chunk: bool) {
    match kind
    case SrcFile(_) => true
    case DstFile(_) => file
    case ChunkHead(_, _) => file
    case Body(_) => chunk
    case Unknown => false
  }

  predicate LineFits(lines: seq<string>, k: nat)
    requires k < |lines|
  {
    Fits(Classify(lines[k]), FileBefore(lines, k), ChunkBefore(lines, k))
  }

  predicate AllFit(lines: seq<string>) {
    forall k :: 0 <= k < |lines| ==> LineFits(lines, k)
  }

  /** What one line needs, and what it leaves. */
  lemma StepNeeds(p: Parser, line: string)
    requires ParserOk(p)
    ensures Step(p, line).Some? <==> Fits(Classify(line), p.patches != [], p.owner.Some?)
    ensures Step(p, line).Some? ==>
      && (Step(p, line).value.patches != [] <==> p.patches != [] || Classify(line).SrcFile?)
      && (Step(p, line).value.owner.Some? <==> p.owner.Some? || Classify(line).ChunkHead?)
  {
    hide Classify;
  }

  lemma OneMoreLine(front: seq<string>, line: string)
    ensures var lines := front + [line]; var n := |front|;
      && (FileBefore(lines, n + 1) <==> FileBefore(front, n) || Classify(line).SrcFile?)
      && (ChunkBefore(lines, n + 1) <==> ChunkBefore(front, n) || Classify(line).ChunkHead?)
      && (AllFit(lines) <==> AllFit(front) && Fits(Classify(line), FileBefore(front, n), ChunkBefore(front, n)))
  {
    hide Classify, Fits;
    var lines, n := front + [line], |front|;
    assert lines[n] == line && forall k :: 0 <= k < n ==> lines[k] == front[k];
    assert forall k :: 0 <= k <= n ==> FileBefore(lines, k) == FileBefore(front, k);
    assert forall k :: 0 <= k <= n ==> ChunkBefore(lines, k) == ChunkBefore(front, k);
    assert forall k :: 0 <= k < n ==> LineFits(lines, k) == LineFits(front, k);
    assert LineFits(lines, n) == Fits(Classify(line), FileBefore(front, n), ChunkBefore(front, n));
    hide LineFits, FileBefore, ChunkBefore;
    if AllFit(front) && LineFits(lines, n) {
      assert AllFit(lines);
    }
    if AllFit(lines) {
      assert forall k :: 0 <= k < n ==> LineFits(lines, k) && LineFits(front, k);
    }
  }

  /** Reading succeeds if and only if every line fits what came before it. */
  lemma {:induction false} ReadSucceeds(lines: seq<string>)
    ensures Steps(START, lines).Some? <==> AllFit(lines)
    ensures Steps(START, lines).Some? ==>
      && (Steps(START, lines).value.patches != [] <==> FileBefore(lines, |lines|))
      && (Steps(START, lines).value.owner.Some? <==> ChunkBefore(lines, |lines|))
    decreases |lines|
  {
    if lines != [] {
      var n := |lines| - 1;
      var front := lines[..n];
      ReadSucceeds(front);
      assert lines == front + [lines[n]];
      OneMoreLine(front, lines[n]);
      if Steps(START, front).Some? {
        StepNeeds(Steps(START, front).value, lines[n]);
      }
      hide Classify, Step, FileBefore, ChunkBefore, AllFit, Fits;
    }
  }

  // ----- which patches

  /** The two names and the number of chunks of each patch: "---" starts a patch, the last "+++" before the next
      one names its destination, and chunks go to the patch started last. */
  function Headings(lines: seq<string>): seq<(string, string, nat)> {
    if lines == [] then [] else Heading(Headings(lines[..|lines|-1]), Classify(lines[|lines|-1]))
  }

  function Heading(before: seq<(string, string, nat)>, kind: Class): seq<(string, string, nat)> {
    var n := |before| - 1;
    match kind
    case SrcFile(name) => before + [(name, "", 0)]
    case DstFile(name) => if before == [] then [] else before[n := (before[n].0, name, before[n].2)]
    case ChunkHead(_, _) => if before == [] then [] else before[n := (before[n].0, before[n].1, before[n].2 + 1)]
    case _ => before
  }

  function HeadingsOf(patches: seq<Patch>): seq<(string, string, nat)> {
    seq(|patches|, i requires 0 <= i < |patches| => (patches[i].src, patches[i].dst, |patches[i].chunks|))
  }

  lemma StepHeadings(p: Parser, line: string)
    requires ParserOk(p) && Step(p, line).Some?
    ensures HeadingsOf(Step(p, line).value.patches) == Heading(HeadingsOf(p.patches), Classify(line))
  {
    hide Classify;
  }

  /** With the chunks of the file in order, this says everything about what is read. */
  lemma {:induction false} ParsedHeadings(lines: seq<string>)
    requires Steps(START, lines).Some?
    ensures HeadingsOf(Steps(START, lines).value.patches) == Headings(lines)
    decreases |lines|
  {
    if lines != [] {
      var n := |lines| - 1;
      ParsedHeadings(lines[..n]);
      StepHeadings(Steps(START, lines[..n]).value, lines[n]);
      hide Classify, Step, Heading, HeadingsOf;
    }
  }
}
