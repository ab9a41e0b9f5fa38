/** Reading and writing unified diffs: utils/check-style.py. A file is a string; regular expressions are
    spelled out as tests on one line of it, without its newline. */
module Patches {
  import opened Common

  datatype Kind = Src | Dst | Both

  datatype Line = Line(kind: Kind, text: string)

  datatype Chunk = Chunk(srcPos: nat, dstPos: nat, lines: seq<Line>)

  datatype Patch = Patch(src: string, dst: string, chunks: seq<Chunk>)

  // ----- decimal numbers

  predicate Digit(c: char) {
    '0' <= c <= '9'
  }

  function Decimal(n: nat): (s: string)
    ensures s != [] && forall i :: 0 <= i < |s| ==> Digit(s[i])
  {
    if n < 10 then ['0' + n as char] else Decimal(n / 10) + ['0' + (n % 10) as char]
  }

  function Number(s: string): nat
    requires forall i :: 0 <= i < |s| ==> Digit(s[i])
  {
    if s == [] then 0
    else
      assert Digit(s[|s|-1]);
      10 * Number(s[..|s|-1]) + (s[|s|-1] - '0') as nat
  }

  lemma {:induction false} DecimalNumber(n: nat)
    ensures Number(Decimal(n)) == n
  {
    if n >= 10 {
      DecimalNumber(n / 10);
      assert Decimal(n)[..|Decimal(n)|-1] == Decimal(n / 10);
    }
  }

  /** The longest prefix of digits. */
  function DigitsPrefix(s: string): (n: nat)
    ensures n <= |s| && forall i :: 0 <= i < n ==> Digit(s[i])
  {
    if s == [] || !Digit(s[0]) then 0 else 1 + DigitsPrefix(s[1..])
  }

  lemma {:induction false} DigitsPrefixOf(s: string, rest: string)
    requires forall i :: 0 <= i < |s| ==> Digit(s[i])
    requires rest == [] || !Digit(rest[0])
    ensures DigitsPrefix(s + rest) == |s|
    decreases |s|
  {
    if s == [] {
      assert s + rest == rest;
    } else {
      assert (s + rest)[1..] == s[1..] + rest;
      DigitsPrefixOf(s[1..], rest);
    }
  }

  // ----- the kinds of lines, lines 222-227

  predicate StartsWith(s: string, prefix: string) {
    |prefix| <= |s| && s[..|prefix|] == prefix
  }

  /** A number followed by `sep`; gives the number and what comes after the separator. */
  function NumberThen(s: string, sep: string): Option<(nat, string)> {
    var n := DigitsPrefix(s);
    if n > 0 && StartsWith(s[n..], sep) then Some((Number(s[..n]), s[n+|sep|..])) else None
  }

  /** `^@@ -([0-9]+),([0-9]+) \+([0-9]+),([0-9]+) @@`: the four numbers. */
  function HeaderNumbers(line: string): Option<(nat, nat, nat, nat)> {
    if !StartsWith(line, "@@ -") then None
    else
      var a := NumberThen(line[4..], ",");
      if a.None? then None else
      var b := NumberThen(a.value.1, " +");
      if b.None? then None else
      var c := NumberThen(b.value.1, ",");
      if c.None? then None else
      var d := NumberThen(c.value.1, " @@");
      if d.None? then None else Some((a.value.0, b.value.0, c.value.0, d.value.0))
  }

  datatype Class = SrcFile(name: string) | DstFile(name: string) | ChunkHead(srcPos: nat, dstPos: nat)
    | Body(line: Line) | Unknown

  /** The order of the tests in the loop, lines 231-264. */
  function Classify(line: string): Class {
    if StartsWith(line, "--- ") then SrcFile(line[4..])
    else if StartsWith(line, "+++ ") then DstFile(line[4..])
    else if HeaderNumbers(line).Some? then ChunkHead(HeaderNumbers(line).value.0, HeaderNumbers(line).value.2)
    else if StartsWith(line, "-") then Body(Line(Src, line[1..]))
    else if StartsWith(line, "+") then Body(Line(Dst, line[1..]))
    else if StartsWith(line, " ") then Body(Line(Both, line[1..]))
    else Unknown
  }

  // ----- parsing

  /** `current_patch` is the last patch; `current_chunk` is the last chunk of patch `owner`, which
      need not be the current patch. */
  datatype Parser = Parser(patches: seq<Patch>, owner: Option<nat>)

  predicate ParserOk(p: Parser) {
    p.owner.Some? ==> p.owner.value < |p.patches| && p.patches[p.owner.value].chunks != []
  }

  function SetDst(patches: seq<Patch>, name: string): seq<Patch>
    requires patches != []
  {
    patches[|patches|-1 := patches[|patches|-1].(dst := name)]
  }

  function AddChunk(patches: seq<Patch>, c: Chunk): seq<Patch>
    requires patches != []
  {
    var last := patches[|patches|-1];
    patches[|patches|-1 := last.(chunks := last.chunks + [c])]
  }

  function AddLine(chunks: seq<Chunk>, line: Line): seq<Chunk>
    requires chunks != []
  {
    var last := chunks[|chunks|-1];
    chunks[|chunks|-1 := last.(lines := last.lines + [line])]
  }

  /** One line; `None` is an exception: a header line before any patch, a body line before any chunk,
      or an unknown line. */
  function Step(p: Parser, line: string): (r: Option<Parser>)
    requires ParserOk(p)
    ensures r.Some? ==> ParserOk(r.value)
  {
    match Classify(line)
    case SrcFile(name) => Some(p.(patches := p.patches + [Patch(name, "", [])]))
    case DstFile(name) =>
      if p.patches == [] then None else Some(p.(patches := SetDst(p.patches, name)))
    case ChunkHead(srcPos, dstPos) =>
      if p.patches == [] then None
      else Some(Parser(AddChunk(p.patches, Chunk(srcPos, dstPos, [])), Some(|p.patches| - 1)))
    case Body(l) =>
      if p.owner.None? then None
      else
        var q := p.patches[p.owner.value];
        Some(p.(patches := p.patches[p.owner.value := q.(chunks := AddLine(q.chunks, l))]))
    case Unknown => None
  }

  function Steps(p: Parser, lines: seq<string>): (r: Option<Parser>)
    requires ParserOk(p)
    ensures r.Some? ==> ParserOk(r.value)
    decreases |lines|
  {
    if lines == [] then Some(p)
    else
      var before := Steps(p, lines[..|lines|-1]);
      if before.None? then None else Step(before.value, lines[|lines|-1])
  }

  const START := Parser([], None)

  /** Lines 221-265. */
  method ParsePatchset(generator: seq<string>) returns (patchset: seq<Patch>, ok: bool)
    ensures ok <==> Steps(START, generator).Some?
    ensures ok ==> patchset == Steps(START, generator).value.patches
  {
    hide Classify;
    patchset, ok := [], true;
    var owner: Option<nat> := None;
    for i := 0 to |generator|
      invariant ok && ParserOk(Parser(patchset, owner)) && Steps(START, generator[..i]) == Some(Parser(patchset, owner))
    {
      var line := generator[i];
      assert generator[..i+1][..i] == generator[..i];
      match Classify(line)
      case SrcFile(name) =>
        patchset := patchset + [Patch(name, "", [])];
      case DstFile(name) =>
        if patchset == [] { StepsFail(generator, i); return patchset, false; }
        patchset := SetDst(patchset, name);
      case ChunkHead(srcPos, dstPos) =>
        if patchset == [] { StepsFail(generator, i); return patchset, false; }
        patchset := AddChunk(patchset, Chunk(srcPos, dstPos, []));
        owner := Some(|patchset| - 1);
      case Body(l) =>
        if owner.None? { StepsFail(generator, i); return patchset, false; }
        var q := patchset[owner.value];
        patchset := patchset[owner.value := q.(chunks := AddLine(q.chunks, l))];
      case Unknown =>
        StepsFail(generator, i);
        return patchset, false;
    }
    assert generator[..|generator|] == generator;
  }

  /** A failure on one line is a failure of the whole. */
  lemma {:induction false} StepsFail(lines: seq<string>, i: nat)
    requires i < |lines| && Steps(START, lines[..i+1]).None?
    ensures Steps(START, lines).None?
    decreases |lines|
  {
    if i + 1 < |lines| {
      assert lines[..|lines|-1][..i+1] == lines[..i+1];
      StepsFail(lines[..|lines|-1], i);
    } else {
      assert lines[..i+1] == lines;
    }
  }

  // ----- writing, lines 157-165, 177-197 and 215-219

  /** The lines of a chunk without those of one kind: its source or its destination side. */
  function Side(lines: seq<Line>, dropped: Kind): seq<Line> {
    if lines == [] then [] else
      Side(lines[..|lines|-1], dropped) + if lines[|lines|-1].kind == dropped then [] else [lines[|lines|-1]]
  }

  function WriteLine(line: Line): string {
    (match line.kind case Src => "-" case Dst => "+" case Both => " ") + line.text
  }

  function WriteLines(lines: seq<Line>): seq<string> {
    if lines == [] then [] else WriteLines(lines[..|lines|-1]) + [WriteLine(lines[|lines|-1])]
  }

  function HeaderText(a: nat, m: nat, b: nat, n: nat): string {
    "@@ -" + (Decimal(a) + ("," + (Decimal(m) + (" +" + (Decimal(b) + ("," + (Decimal(n) + " @@")))))))
  }

  function Header(c: Chunk): string {
    HeaderText(c.srcPos, |Side(c.lines, Dst)|, c.dstPos, |Side(c.lines, Src)|)
  }

  function WriteChunks(chunks: seq<Chunk>): seq<string> {
    if chunks == [] then []
    else WriteChunks(chunks[..|chunks|-1]) + ([Header(chunks[|chunks|-1])] + WriteLines(chunks[|chunks|-1].lines))
  }

  function WritePatch(p: Patch): seq<string> {
    ["--- " + p.src, "+++ " + p.dst] + WriteChunks(p.chunks)
  }

  function WriteAll(patches: seq<Patch>): seq<string> {
    if patches == [] then [] else WriteAll(patches[..|patches|-1]) + WritePatch(patches[|patches|-1])
  }

  // ----- lines and files

  function FirstNewline(s: string): (i: nat)
    ensures i <= |s| && '\n' !in s[..i] && (i < |s| ==> s[i] == '\n')
  {
    if s == [] || s[0] == '\n' then 0 else 1 + FirstNewline(s[1..])
  }

  /** The lines Python reads from a file; the last one may lack its newline. */
  function LinesOf(file: string): seq<string> {
    if file == [] then []
    else
      var i := FirstNewline(file);
      [file[..i]] + LinesOf(file[if i < |file| then i + 1 else i..])
  }

  function Text(lines: seq<string>): string {
    if lines == [] then "" else Text(lines[..|lines|-1]) + (lines[|lines|-1] + "\n")
  }

  predicate SingleLines(lines: seq<string>) {
    forall i :: 0 <= i < |lines| ==> '\n' !in lines[i]
  }

  lemma {:induction false} LinesAreSingle(file: string)
    ensures SingleLines(LinesOf(file))
    decreases |file|
  {
    if file != [] {
      var i := FirstNewline(file);
      LinesAreSingle(file[if i < |file| then i + 1 else i..]);
    }
  }

  lemma {:induction false} FirstNewlineOf(s: string, rest: string)
    requires '\n' !in s
    ensures FirstNewline(s + "\n" + rest) == |s|
    decreases |s|
  {
    if s != [] {
      assert (s + "\n" + rest)[1..] == s[1..] + "\n" + rest;
      FirstNewlineOf(s[1..], rest);
    }
  }

  lemma {:induction false} TextConcat(s: seq<string>, t: seq<string>)
    ensures Text(s + t) == Text(s) + Text(t)
    decreases |t|
  {
    if t == [] {
      assert s + t == s;
    } else {
      var n := |t| - 1;
      assert t == t[..n] + [t[n]] && s + t == s + t[..n] + [t[n]];
      hide Text;
      TextConcat(s, t[..n]);
      assert Text(s) + (Text(t[..n]) + (t[n] + "\n")) == Text(s) + Text(t[..n]) + (t[n] + "\n");
    }
  }

  lemma FirstLine(first: string, rest: string)
    requires '\n' !in first
    ensures LinesOf(first + "\n" + rest) == [first] + LinesOf(rest)
  {
    FirstNewlineOf(first, rest);
    hide FirstNewline;
    var file := first + "\n" + rest;
    assert file[..|first|] == first && file[|first|+1..] == rest;
  }

  /** Lines without newlines are read back as they were written. */
  lemma {:induction false} LinesOfText(lines: seq<string>)
    requires SingleLines(lines)
    ensures LinesOf(Text(lines)) == lines
    decreases |lines|
  {
    if lines != [] {
      var first, rest := lines[0], lines[1..];
      assert lines == [first] + rest && '\n' !in first && SingleLines(rest);
      TextConcat([first], rest);
      TextOfOne(first);
      hide Text, LinesOf, SingleLines;
      LinesOfText(rest);
      FirstLine(first, Text(rest));
    }
  }

  lemma TextOfOne(line: string)
    ensures Text([line]) == line + "\n"
  {
    assert [line][..0] == [];
  }

  // ----- the writers

  /** `src` and `dst`, lines 177-188. */
  method SideOf(lines: seq<Line>, dropped: Kind) returns (side: seq<Line>)
    ensures side == Side(lines, dropped)
  {
    side := [];
    for i := 0 to |lines|
      invariant side == Side(lines[..i], dropped)
    {
      assert lines[..i+1][..i] == lines[..i];
      if lines[i].kind != dropped {
        side := side + [lines[i]];
      }
    }
    assert lines[..|lines|] == lines;
  }

  /** Lines 193-197. */
  method WriteChunk(c: Chunk, f0: string) returns (f: string)
    ensures f == f0 + Text([Header(c)] + WriteLines(c.lines))
  {
    hide WriteLine, HeaderText;
    var src := SideOf(c.lines, Dst);
    var dst := SideOf(c.lines, Src);
    ghost var head := [Header(c)];
    f := f0 + (HeaderText(c.srcPos, |src|, c.dstPos, |dst|) + "\n");
    assert head + [] == head && [] + head == head;
    for i := 0 to |c.lines|
      invariant f == f0 + Text(head + WriteLines(c.lines[..i]))
    {
      f := f + (WriteLine(c.lines[i]) + "\n");
      LineWritten(head, c.lines, i);
      hide Text, WriteLines;
    }
    assert c.lines[..|c.lines|] == c.lines;
  }

  lemma LineWritten(head: seq<string>, lines: seq<Line>, i: nat)
    requires i < |lines|
    ensures Text(head + WriteLines(lines[..i+1])) == Text(head + WriteLines(lines[..i])) + (WriteLine(lines[i]) + "\n")
  {
    assert lines[..i+1][..i] == lines[..i];
    assert head + WriteLines(lines[..i]) + [WriteLine(lines[i])] == head + WriteLines(lines[..i+1]);
  }

  /** Lines 215-219. */
  method WritePatchTo(p: Patch, f0: string) returns (f: string)
    ensures f == f0 + Text(WritePatch(p))
  {
    hide Text, WriteChunks, WriteLines, Header;
    f := f0 + ("--- " + p.src + "\n") + ("+++ " + p.dst + "\n");
    ghost var names := ["--- " + p.src, "+++ " + p.dst];
    NamesWritten(names, p.chunks);
    for i := 0 to |p.chunks|
      invariant f == f0 + Text(names + WriteChunks(p.chunks[..i]))
    {
      f := WriteChunk(p.chunks[i], f);
      ChunkWritten(names, p.chunks, i);
    }
    assert p.chunks[..|p.chunks|] == p.chunks;
  }

  lemma NamesWritten(names: seq<string>, chunks: seq<Chunk>)
    requires |names| == 2
    ensures Text(names + WriteChunks(chunks[..0])) == (names[0] + "\n") + (names[1] + "\n")
  {
    assert Text([]) == "" && chunks[..0] == [] && names + WriteChunks([]) == names;
    hide *;
    assert [] + [names[0]] == [names[0]] && [names[0]] + [names[1]] == names;
    assert "" + (names[0] + "\n") == names[0] + "\n";
  }

  lemma ChunkWritten(names: seq<string>, chunks: seq<Chunk>, i: nat)
    requires i < |chunks|
    ensures Text(names + WriteChunks(chunks[..i+1]))
      == Text(names + WriteChunks(chunks[..i])) + Text([Header(chunks[i])] + WriteLines(chunks[i].lines))
  {
    hide Header, WriteLines, Text;
    var chunk := [Header(chunks[i])] + WriteLines(chunks[i].lines);
    assert chunks[..i+1][..i] == chunks[..i];
    TextConcat(names + WriteChunks(chunks[..i]), chunk);
    assert names + WriteChunks(chunks[..i]) + chunk == names + WriteChunks(chunks[..i+1]);
  }

  /** A source-only line "-- ..." or a destination-only line "++ ..." is written like a file header. */
  predicate LooksLikeHeader(line: Line) {
    (line.kind.Src? && StartsWith(line.text, "-- ")) || (line.kind.Dst? && StartsWith(line.text, "++ "))
  }

  predicate NoFalseHeaders(patches: seq<Patch>) {
    forall i, j, k :: 0 <= i < |patches| && 0 <= j < |patches[i].chunks| && 0 <= k < |patches[i].chunks[j].lines|
      ==> !LooksLikeHeader(patches[i].chunks[j].lines[k])
  }

  // ----- what each written line is classified as

  lemma ClassifyLine(line: Line)
    ensures !LooksLikeHeader(line) ==> Classify(WriteLine(line)) == Body(line)
    ensures LooksLikeHeader(line) ==> !Classify(WriteLine(line)).Body?
  {
    var s := WriteLine(line);
    var c := s[0];
    assert s == [c] + line.text && s[1..] == line.text;
    Prefixed(c, line.text, '-', "");
    Prefixed(c, line.text, '+', "");
    Prefixed(c, line.text, ' ', "");
    Prefixed(c, line.text, '@', "@ -");
    Prefixed(c, line.text, '-', "-- ");
    Prefixed(c, line.text, '+', "++ ");
    assert ['-'] + "" == "-" && ['+'] + "" == "+" && [' '] + "" == " ";
    assert ['@'] + "@ -" == "@@ -" && ['-'] + "-- " == "--- " && ['+'] + "++ " == "+++ ";
    hide StartsWith, NumberThen;
  }

  lemma Prefixed(c: char, text: string, d: char, prefix: string)
    ensures StartsWith([c] + text, [d] + prefix) <==> c == d && StartsWith(text, prefix)
  {
    if |prefix| <= |text| {
      assert ([c] + text)[..|prefix|+1] == [c] + text[..|prefix|];
      assert ([c] + text)[..|prefix|+1][1..] == text[..|prefix|];
      assert ([d] + prefix)[1..] == prefix;
    }
  }

  predicate Digits(s: string) {
    s != [] && forall i :: 0 <= i < |s| ==> Digit(s[i])
  }

  lemma NumberThenIs(d: string, sep: string, rest: string)
    requires Digits(d) && sep != [] && !Digit(sep[0])
    ensures NumberThen(d + (sep + rest), sep) == Some((Number(d), rest))
  {
    var s := d + (sep + rest);
    assert (sep + rest)[0] == sep[0];
    DigitsPrefixOf(d, sep + rest);
    assert s[..|d|] == d && s[|d|..] == sep + rest && (sep + rest)[..|sep|] == sep;
    assert s[|d|+|sep|..] == rest;
  }

  lemma NumberThenDecimal(n: nat, sep: string, rest: string)
    requires sep != [] && !Digit(sep[0])
    ensures NumberThen(Decimal(n) + (sep + rest), sep) == Some((n, rest))
  {
    NumberThenIs(Decimal(n), sep, rest);
    DecimalNumber(n);
  }

  /** A side has every line of the other two kinds, as often as the chunk has it. */
  lemma {:induction false} SideIs(lines: seq<Line>, dropped: Kind, x: Line)
    ensures multiset(Side(lines, dropped))[x] == if x.kind == dropped then 0 else multiset(lines)[x]
    decreases |lines|
  {
    if lines != [] {
      SideIs(lines[..|lines|-1], dropped, x);
      assert lines == lines[..|lines|-1] + [lines[|lines|-1]];
    }
  }

  /** The four numbers in a header are read back; two of them are the lengths of the chunk's two sides. */
  lemma HeaderCounts(c: Chunk)
    ensures HeaderNumbers(Header(c)) == Some((c.srcPos, |Side(c.lines, Dst)|, c.dstPos, |Side(c.lines, Src)|))
  {
    NumbersRead(c.srcPos, |Side(c.lines, Dst)|, c.dstPos, |Side(c.lines, Src)|);
    hide HeaderNumbers, HeaderText, Side;
  }

  lemma NumbersRead(a: nat, m: nat, b: nat, n: nat)
    ensures HeaderNumbers(HeaderText(a, m, b, n)) == Some((a, m, b, n))
  {
    var s4 := Decimal(n) + " @@";
    var s3 := Decimal(b) + ("," + s4);
    var s2 := Decimal(m) + (" +" + s3);
    var s1 := Decimal(a) + ("," + s2);
    NumberThenDecimal(a, ",", s2);
    NumberThenDecimal(m, " +", s3);
    NumberThenDecimal(b, ",", s4);
    assert " @@" + "" == " @@";
    NumberThenDecimal(n, " @@", "");
    hide Decimal, NumberThen;
    var line := "@@ -" + s1;
    assert HeaderText(a, m, b, n) == line;
    assert line[4..] == s1 && StartsWith(line, "@@ -");
    hide StartsWith;
  }

  lemma ClassifyHeader(c: Chunk)
    ensures Classify(Header(c)) == ChunkHead(c.srcPos, c.dstPos)
  {
    HeaderCounts(c);
    hide HeaderNumbers, Decimal, Side;
    assert Header(c)[0] == '@' != '-' && '@' != '+' && Header(c)[..4][0] == '@';
    assert !StartsWith(Header(c), "--- ") && !StartsWith(Header(c), "+++ ");
  }

  lemma ClassifyNames(name: string)
    ensures Classify("--- " + name) == SrcFile(name) && Classify("+++ " + name) == DstFile(name)
  {
    assert ("--- " + name)[..4] == "--- " && ("--- " + name)[4..] == name;
    assert ("+++ " + name)[..4] == "+++ " && ("+++ " + name)[4..] == name;
    assert ("+++ " + name)[..4][0] == '+';
  }

  lemma ChunksUnfold(chunks: seq<Chunk>, before: seq<Chunk>, c: Chunk)
    requires chunks == before + [c]
    ensures WriteChunks(chunks) == WriteChunks(before) + ([Header(c)] + WriteLines(c.lines))
    ensures ChunkLines(chunks) == ChunkLines(before) + |c.lines|
    ensures ChunksOk(chunks) <==> ChunksOk(before) && LinesOk(c.lines)
  {
    hide Header, WriteLines, LinesOk;
    assert chunks[..|chunks|-1] == before && chunks[|chunks|-1] == c;
    ChunksOkSnoc(before, c);
    hide ChunksOk;
  }

  lemma ChunksOkSnoc(before: seq<Chunk>, c: Chunk)
    ensures ChunksOk(before + [c]) <==> ChunksOk(before) && LinesOk(c.lines)
  {
    hide LinesOk;
    assert (before + [c])[|before|] == c;
    assert forall j :: 0 <= j < |before| ==> (before + [c])[j] == before[j];
  }

  // ----- parsing what was written

  lemma {:induction false} StepsConcat(p: Parser, s: seq<string>, t: seq<string>)
    requires ParserOk(p)
    ensures Steps(p, s + t) == if Steps(p, s).None? then None else Steps(Steps(p, s).value, t)
    decreases |t|
  {
    if t == [] {
      assert s + t == s;
    } else {
      StepsConcat(p, s, t[..|t|-1]);
      assert (s + t)[..|s+t|-1] == s + t[..|t|-1];
    }
  }

  lemma StepsSnoc(p: Parser, s: seq<string>, line: string)
    requires ParserOk(p)
    ensures Steps(p, s + [line]) == if Steps(p, s).None? then None else Step(Steps(p, s).value, line)
  {
    assert (s + [line])[..|s|] == s;
  }

  predicate LinesOk(lines: seq<Line>) {
    forall k :: 0 <= k < |lines| ==> !LooksLikeHeader(lines[k])
  }

  predicate ChunksOk(chunks: seq<Chunk>) {
    forall j :: 0 <= j < |chunks| ==> LinesOk(chunks[j].lines)
  }

  predicate PatchesOk(patches: seq<Patch>) {
    forall i :: 0 <= i < |patches| ==> ChunksOk(patches[i].chunks)
  }

  /** The state while the last chunk of the last patch is being filled. */
  function Filling(pre: seq<Patch>, p: Patch, chunks: seq<Chunk>, c: Chunk): Parser {
    Parser(pre + [p.(chunks := chunks + [c])], Some(|pre|))
  }

  lemma {:induction false} ParseLines(pre: seq<Patch>, p: Patch, chunks: seq<Chunk>, c: Chunk, lines: seq<Line>)
    requires LinesOk(lines) && c.lines == []
    ensures Steps(Filling(pre, p, chunks, c), WriteLines(lines)) == Some(Filling(pre, p, chunks, c.(lines := lines)))
    decreases |lines|
  {
    if lines == [] {
      assert c.(lines := lines) == c;
    } else {
      var before, line := lines[..|lines|-1], lines[|lines|-1];
      assert WriteLines(lines) == WriteLines(before) + [WriteLine(line)] && before + [line] == lines;
      assert LinesOk(before) && !LooksLikeHeader(line) && ParserOk(Filling(pre, p, chunks, c));
      ClassifyLine(line);
      hide Steps, Step, Classify, WriteLine, WriteLines, LinesOk, Filling;
      ParseLines(pre, p, chunks, c, before);
      StepsSnoc(Filling(pre, p, chunks, c), WriteLines(before), WriteLine(line));
      FillOne(pre, p, chunks, c.(lines := before), WriteLine(line), line);
    }
  }

  lemma FillOne(pre: seq<Patch>, p: Patch, chunks: seq<Chunk>, c: Chunk, written: string, line: Line)
    requires Classify(written) == Body(line)
    ensures Step(Filling(pre, p, chunks, c), written) == Some(Filling(pre, p, chunks, c.(lines := c.lines + [line])))
  {
    var q := p.(chunks := chunks + [c]);
    assert (pre + [q])[|pre|] == q;
    assert AddLine(chunks + [c], line) == chunks + [c.(lines := c.lines + [line])];
    var q' := q.(chunks := AddLine(q.chunks, line));
    assert (pre + [q])[|pre| := q'] == pre + [q'];
  }

  lemma {:induction false} ParseChunks(pre: seq<Patch>, owner: Option<nat>, p: Patch, chunks: seq<Chunk>)
    requires ParserOk(Parser(pre, owner)) && p.chunks == [] && ChunksOk(chunks)
    ensures var start := Parser(pre + [p], owner);
      ParserOk(start) && Steps(start, WriteChunks(chunks))
        == Some(Parser(pre + [p.(chunks := chunks)], if chunks == [] then owner else Some(|pre|)))
    decreases |chunks|
  {
    var start := Parser(pre + [p], owner);
    if chunks == [] {
      assert p.(chunks := chunks) == p;
    } else {
      var n := |chunks| - 1;
      var c, before := chunks[n], chunks[..n];
      assert chunks == before + [c];
      hide Steps, WriteChunks, WriteLines, Header, ChunksOk, LinesOk;
      ParseChunks(pre, owner, p, before);
      var mid := Parser(pre + [p.(chunks := before)], if before == [] then owner else Some(|pre|));
      StepsConcat(start, WriteChunks(before), [Header(c)] + WriteLines(c.lines));
      ParseChunk(mid, pre, p, before, c);
    }
  }

  lemma ParseChunk(mid: Parser, pre: seq<Patch>, p: Patch, before: seq<Chunk>, c: Chunk)
    requires ParserOk(mid) && mid.patches == pre + [p.(chunks := before)] && LinesOk(c.lines)
    ensures Steps(mid, [Header(c)] + WriteLines(c.lines)) == Some(Filling(pre, p, before, c))
  {
    var empty := Chunk(c.srcPos, c.dstPos, []);
    StepsConcat(mid, [Header(c)], WriteLines(c.lines));
    StepsSnoc(mid, [], Header(c));
    assert [] + [Header(c)] == [Header(c)];
    ClassifyHeader(c);
    assert Step(mid, Header(c)) == Some(Filling(pre, p, before, empty)) by {
      assert (pre + [p.(chunks := before)])[|pre|] == p.(chunks := before);
      assert AddChunk(mid.patches, empty) == pre + [p.(chunks := before + [empty])];
    }
    ParseLines(pre, p, before, empty, c.lines);
    assert empty.(lines := c.lines) == c;
  }

  lemma AllUnfold(patches: seq<Patch>, before: seq<Patch>, p: Patch)
    requires patches == before + [p]
    ensures WriteAll(patches) == WriteAll(before) + WritePatch(p)
    ensures ChunkLines(AllChunks(patches)) == ChunkLines(AllChunks(before)) + ChunkLines(p.chunks)
  {
    assert patches[..|patches|-1] == before && patches[|patches|-1] == p;
    hide WritePatch, ChunkLines;
    ChunkLinesConcat(AllChunks(before), p.chunks);
  }

  lemma ParseOne(m: Parser, p: Patch)
    requires ParserOk(m) && ChunksOk(p.chunks)
    ensures Steps(m, WritePatch(p)).Some? && Steps(m, WritePatch(p)).value.patches == m.patches + [p]
  {
    var bare := Patch(p.src, p.dst, []);
    StepsConcat(m, ["--- " + p.src, "+++ " + p.dst], WriteChunks(p.chunks));
    ParseNames(m, p);
    ParseChunks(m.patches, m.owner, bare, p.chunks);
    assert bare.(chunks := p.chunks) == p;
  }

  lemma {:induction false} ParseWritten(patches: seq<Patch>)
    requires PatchesOk(patches)
    ensures Steps(START, WriteAll(patches)).Some? && Steps(START, WriteAll(patches)).value.patches == patches
    decreases |patches|
  {
    if patches != [] {
      var pre, p := patches[..|patches|-1], patches[|patches|-1];
      assert PatchesOk(pre) && ChunksOk(p.chunks) && patches == pre + [p] && ParserOk(START);
      hide *;
      ParseWritten(pre);
      AllUnfold(patches, pre, p);
      StepsConcat(START, WriteAll(pre), WritePatch(p));
      ParseOne(Steps(START, WriteAll(pre)).value, p);
    }
  }

  lemma ParseNames(m: Parser, p: Patch)
    requires ParserOk(m)
    ensures Steps(m, ["--- " + p.src, "+++ " + p.dst]) == Some(Parser(m.patches + [Patch(p.src, p.dst, [])], m.owner))
  {
    ClassifyNames(p.src);
    ClassifyNames(p.dst);
    var m1 := Parser(m.patches + [Patch(p.src, "", [])], m.owner);
    StepsSnoc(m, [], "--- " + p.src);
    assert [] + ["--- " + p.src] == ["--- " + p.src];
    StepsSnoc(m, ["--- " + p.src], "+++ " + p.dst);
    assert ["--- " + p.src] + ["+++ " + p.dst] == ["--- " + p.src, "+++ " + p.dst];
    assert SetDst(m1.patches, p.dst) == m.patches + [Patch(p.src, p.dst, [])];
  }

  // ----- where the lines go

  function AllChunks(patches: seq<Patch>): seq<Chunk> {
    if patches == [] then [] else AllChunks(patches[..|patches|-1]) + patches[|patches|-1].chunks
  }

  /** The chunks a list of lines describes, file headers aside: each chunk header starts one, and each body
      line goes to the chunk started last. */
  function Grouped(lines: seq<string>): seq<Chunk> {
    if lines == [] then []
    else
      var before := Grouped(lines[..|lines|-1]);
      match Classify(lines[|lines|-1])
      case ChunkHead(srcPos, dstPos) => before + [Chunk(srcPos, dstPos, [])]
      case Body(l) => if before == [] then [] else AddLine(before, l)
      case _ => before
  }

  lemma {:induction false} AllChunksCut(patches: seq<Patch>, i: nat)
    requires i < |patches| && forall j :: i < j < |patches| ==> patches[j].chunks == []
    ensures AllChunks(patches) == AllChunks(patches[..i]) + patches[i].chunks
    decreases |patches|
  {
    if i < |patches| - 1 {
      var front := patches[..|patches|-1];
      AllChunksCut(front, i);
      assert front[..i] == patches[..i] && AllChunks(front) + [] == AllChunks(front);
    }
  }

  /** The patches after the one that owns the current chunk have no chunks yet. */
  predicate Current(p: Parser) {
    && ParserOk(p)
    && forall j :: (if p.owner.Some? then p.owner.value + 1 else 0) <= j < |p.patches| ==> p.patches[j].chunks == []
  }

  lemma {:induction false} NoChunks(patches: seq<Patch>)
    requires forall j :: 0 <= j < |patches| ==> patches[j].chunks == []
    ensures AllChunks(patches) == []
    decreases |patches|
  {
    if patches != [] {
      NoChunks(patches[..|patches|-1]);
    }
  }

  lemma StepBody(p: Parser, line: string, l: Line)
    requires Current(p) && Step(p, line).Some? && Classify(line) == Body(l)
    ensures var r := Step(p, line).value;
      Current(r) && AllChunks(p.patches) != [] && AllChunks(r.patches) == AddLine(AllChunks(p.patches), l)
  {
    hide Classify, AllChunks;
    var i := p.owner.value;
    var q := p.patches[i];
    var after := p.patches[i := q.(chunks := AddLine(q.chunks, l))];
    AllChunksCut(p.patches, i);
    AllChunksCut(after, i);
    assert after[..i] == p.patches[..i];
    hide AddLine;
  }

  lemma StepChunk(p: Parser, line: string, a: nat, b: nat)
    requires Current(p) && Step(p, line).Some? && Classify(line) == ChunkHead(a, b)
    ensures var r := Step(p, line).value; Current(r) && AllChunks(r.patches) == AllChunks(p.patches) + [Chunk(a, b, [])]
  {
    hide Classify;
    var q := p.patches[|p.patches|-1];
    hide AllChunks;
  }

  lemma StepFile(p: Parser, line: string)
    requires Current(p) && Step(p, line).Some? && (Classify(line).SrcFile? || Classify(line).DstFile?)
    ensures var r := Step(p, line).value; Current(r) && AllChunks(r.patches) == AllChunks(p.patches)
  {
    hide Classify;
    if Classify(line).SrcFile? {
      var after := p.patches + [Patch(Classify(line).name, "", [])];
      assert after[..|p.patches|] == p.patches && AllChunks(p.patches) + [] == AllChunks(p.patches);
    }
  }

  lemma StepGroups(p: Parser, line: string)
    requires Current(p) && Step(p, line).Some?
    ensures var r := Step(p, line).value;
      && Current(r)
      && AllChunks(r.patches) == match Classify(line)
         case ChunkHead(srcPos, dstPos) => AllChunks(p.patches) + [Chunk(srcPos, dstPos, [])]
         case Body(l) => if AllChunks(p.patches) == [] then [] else AddLine(AllChunks(p.patches), l)
         case _ => AllChunks(p.patches)
  {
    hide Classify, Current, AllChunks;
    match Classify(line)
    case ChunkHead(a, b) => StepChunk(p, line, a, b);
    case Body(l) => StepBody(p, line, l);
    case Unknown =>
    case _ => StepFile(p, line);
  }

  /** Whatever is read, each body line ends up in the chunk whose header was read last before it, and the
      chunks of all patches are the chunks of the file in order. */
  lemma {:induction false} ParsedChunks(lines: seq<string>)
    ensures Steps(START, lines).Some? ==>
      var r := Steps(START, lines).value; Current(r) && AllChunks(r.patches) == Grouped(lines)
    decreases |lines|
  {
    if lines != [] {
      var n := |lines| - 1;
      ParsedChunks(lines[..n]);
      if Steps(START, lines).Some? {
        StepGroups(Steps(START, lines[..n]).value, lines[n]);
      }
    }
  }

  // ----- and nothing else survives: counting body lines

  function ChunkLines(chunks: seq<Chunk>): nat {
    if chunks == [] then 0 else ChunkLines(chunks[..|chunks|-1]) + |chunks[|chunks|-1].lines|
  }

  function Bodies(lines: seq<string>): nat {
    if lines == [] then 0 else Bodies(lines[..|lines|-1]) + if Classify(lines[|lines|-1]).Body? then 1 else 0
  }

  /** Every body line read ends up in exactly one chunk. */
  lemma {:induction false} ParsedTotal(lines: seq<string>)
    requires Steps(START, lines).Some?
    ensures ChunkLines(Grouped(lines)) == Bodies(lines)
    decreases |lines|
  {
    if lines != [] {
      var n := |lines| - 1;
      ParsedTotal(lines[..n]);
      ParsedChunks(lines[..n]);
      if Classify(lines[n]).Body? {
        StepBody(Steps(START, lines[..n]).value, lines[n], Classify(lines[n]).line);
      }
    }
  }

  lemma {:induction false} ChunkLinesConcat(s: seq<Chunk>, t: seq<Chunk>)
    ensures ChunkLines(s + t) == ChunkLines(s) + ChunkLines(t)
    decreases |t|
  {
    if t == [] {
      assert s + t == s;
    } else {
      ChunkLinesConcat(s, t[..|t|-1]);
      assert (s + t)[..|s+t|-1] == s + t[..|t|-1];
    }
  }

  lemma {:induction false} BodiesConcat(s: seq<string>, t: seq<string>)
    ensures Bodies(s + t) == Bodies(s) + Bodies(t)
    decreases |t|
  {
    if t == [] {
      assert s + t == s;
    } else {
      BodiesConcat(s, t[..|t|-1]);
      assert (s + t)[..|s+t|-1] == s + t[..|t|-1];
    }
  }

  lemma {:induction false} WrittenLines(lines: seq<Line>)
    ensures Bodies(WriteLines(lines)) <= |lines|
    ensures Bodies(WriteLines(lines)) == |lines| ==> LinesOk(lines)
    decreases |lines|
  {
    if lines != [] {
      var before, line := lines[..|lines|-1], lines[|lines|-1];
      assert WriteLines(lines) == WriteLines(before) + [WriteLine(line)];
      assert LinesOk(before) && !LooksLikeHeader(line) ==> LinesOk(lines);
      hide *;
      WrittenLines(before);
      WrittenLine(line);
      BodiesConcat(WriteLines(before), [WriteLine(line)]);
    }
  }

  lemma WrittenLine(line: Line)
    ensures Bodies([WriteLine(line)]) == if LooksLikeHeader(line) then 0 else 1
  {
    ClassifyLine(line);
    hide Classify, WriteLine, LooksLikeHeader;
    assert [WriteLine(line)][..0] == [];
  }

  lemma HeaderNotBody(c: Chunk)
    ensures Bodies([Header(c)]) == 0
  {
    ClassifyHeader(c);
    assert [Header(c)][..0] == [];
  }

  lemma NamesNotBody(p: Patch)
    ensures Bodies(["--- " + p.src, "+++ " + p.dst]) == 0
  {
    ClassifyNames(p.src);
    ClassifyNames(p.dst);
    BodiesConcat(["--- " + p.src], ["+++ " + p.dst]);
    assert ["--- " + p.src] + ["+++ " + p.dst] == ["--- " + p.src, "+++ " + p.dst];
    assert ["--- " + p.src][..0] == [] && ["+++ " + p.dst][..0] == [];
  }

  lemma {:induction false} WrittenChunks(chunks: seq<Chunk>)
    ensures Bodies(WriteChunks(chunks)) <= ChunkLines(chunks)
    ensures Bodies(WriteChunks(chunks)) == ChunkLines(chunks) ==> ChunksOk(chunks)
    decreases |chunks|
  {
    if chunks != [] {
      hide *;
      var n := |chunks| - 1;
      var c := chunks[n];
      assert chunks == chunks[..n] + [c];
      WrittenChunks(chunks[..n]);
      ChunksUnfold(chunks, chunks[..n], c);
      WrittenChunk(c);
      BodiesConcat(WriteChunks(chunks[..n]), [Header(c)] + WriteLines(c.lines));
    }
  }

  lemma WrittenChunk(c: Chunk)
    ensures Bodies([Header(c)] + WriteLines(c.lines)) <= |c.lines|
    ensures Bodies([Header(c)] + WriteLines(c.lines)) == |c.lines| ==> LinesOk(c.lines)
  {
    hide *;
    WrittenLines(c.lines);
    HeaderNotBody(c);
    BodiesConcat([Header(c)], WriteLines(c.lines));
  }

  lemma WrittenPatch(p: Patch)
    ensures Bodies(WritePatch(p)) <= ChunkLines(p.chunks)
    ensures Bodies(WritePatch(p)) == ChunkLines(p.chunks) ==> ChunksOk(p.chunks)
  {
    WrittenChunks(p.chunks);
    NamesNotBody(p);
    BodiesConcat(["--- " + p.src, "+++ " + p.dst], WriteChunks(p.chunks));
    hide Bodies, WriteChunks, ChunksOk, ChunkLines;
  }

  lemma {:induction false} WrittenAll(patches: seq<Patch>)
    ensures Bodies(WriteAll(patches)) <= ChunkLines(AllChunks(patches))
    ensures Bodies(WriteAll(patches)) == ChunkLines(AllChunks(patches)) ==> PatchesOk(patches)
    decreases |patches|
  {
    if patches != [] {
      var pre, p := patches[..|patches|-1], patches[|patches|-1];
      assert patches == pre + [p];
      assert PatchesOk(pre) && ChunksOk(p.chunks) ==> PatchesOk(patches);
      hide *;
      WrittenAll(pre);
      WrittenPatch(p);
      AllUnfold(patches, pre, p);
      BodiesConcat(WriteAll(pre), WritePatch(p));
    }
  }

  // ----- nothing with a newline in it is ever read

  predicate OneLiners(patches: seq<Patch>) {
    forall i :: 0 <= i < |patches| ==> PatchOneLiner(patches[i])
  }

  predicate PatchOneLiner(p: Patch) {
    '\n' !in p.src && '\n' !in p.dst && ChunksOneLiners(p.chunks)
  }

  predicate ChunksOneLiners(chunks: seq<Chunk>) {
    forall j, k :: 0 <= j < |chunks| && 0 <= k < |chunks[j].lines| ==> '\n' !in chunks[j].lines[k].text
  }

  lemma StepOneLiners(p: Parser, line: string)
    requires ParserOk(p) && OneLiners(p.patches) && '\n' !in line && Step(p, line).Some?
    ensures OneLiners(Step(p, line).value.patches)
  {
    hide HeaderNumbers;
    match Classify(line)
    case SrcFile(name) =>
    case DstFile(name) =>
    case ChunkHead(a, b) =>
      var q := p.patches[|p.patches|-1];
      assert PatchOneLiner(q);
      assert ChunksOneLiners(q.chunks + [Chunk(a, b, [])]);
    case Body(l) =>
      var q := p.patches[p.owner.value];
      assert PatchOneLiner(q) && '\n' !in l.text;
      assert ChunksOneLiners(AddLine(q.chunks, l));
    case Unknown =>
  }

  lemma {:induction false} ReadOneLiners(lines: seq<string>)
    requires SingleLines(lines) && Steps(START, lines).Some?
    ensures OneLiners(Steps(START, lines).value.patches)
    decreases |lines|
  {
    if lines != [] {
      var n := |lines| - 1;
      ReadOneLiners(lines[..n]);
      StepOneLiners(Steps(START, lines[..n]).value, lines[n]);
    }
  }

  lemma {:induction false} WrittenSingle(lines: seq<Line>)
    requires forall k :: 0 <= k < |lines| ==> '\n' !in lines[k].text
    ensures SingleLines(WriteLines(lines))
    decreases |lines|
  {
    if lines != [] {
      WrittenSingle(lines[..|lines|-1]);
    }
  }

  lemma {:induction false} ChunksSingle(chunks: seq<Chunk>)
    requires ChunksOneLiners(chunks)
    ensures SingleLines(WriteChunks(chunks))
    decreases |chunks|
  {
    if chunks != [] {
      var n := |chunks| - 1;
      var c := chunks[n];
      assert ChunksOneLiners(chunks[..n]);
      ChunksSingle(chunks[..n]);
      WrittenSingle(c.lines);
      hide HeaderText;
    }
  }

  lemma {:induction false} AllSingle(patches: seq<Patch>)
    requires OneLiners(patches)
    ensures SingleLines(WriteAll(patches))
    decreases |patches|
  {
    if patches != [] {
      var n := |patches| - 1;
      AllSingle(patches[..n]);
      PatchSingle(patches[n]);
      hide WritePatch;
    }
  }

  lemma PatchSingle(p: Patch)
    requires PatchOneLiner(p)
    ensures SingleLines(WritePatch(p))
  {
    ChunksSingle(p.chunks);
    hide WriteChunks;
  }

  // ----- the round trip

  function FileOf(patches: seq<Patch>): string {
    Text(WriteAll(patches))
  }

  /** What reading a file gives; `None` is an exception. */
  function ReadFile(file: string): Option<seq<Patch>> {
    var end := Steps(START, LinesOf(file));
    if end.None? then None else Some(end.value.patches)
  }

  /** Writing a patch set to a file and reading it back gives the same patch set if and only if no line is
      written so that it looks like a file header and there is no newline in a name or a line's text. */
  lemma RoundTrip(patches: seq<Patch>)
    ensures ReadFile(FileOf(patches)) == Some(patches) <==> NoFalseHeaders(patches) && OneLiners(patches)
  {
    var file, lines := FileOf(patches), WriteAll(patches);
    if ReadFile(file) == Some(patches) {
      LinesAreSingle(file);
      ReadOneLiners(LinesOf(file));
    }
    if OneLiners(patches) {
      AllSingle(patches);
      LinesOfText(lines);
      if NoFalseHeaders(patches) {
        ParseWritten(patches);
      }
      if ReadFile(file) == Some(patches) {
        ParsedTotal(lines);
        ParsedChunks(lines);
        WrittenAll(patches);
      }
    }
    hide LinesOf, Steps, WriteAll, OneLiners, Grouped, AllChunks, Bodies, ChunkLines;
  }
}
