/** Unified diffs as check-style.py writes and reads them: the values behind the objects, the lines
    that stand for them, and when reading gives back what was written. */
module PatchFormat {
  import opened Results

  datatype LineType = Unset | Src | Dst | Both

  datatype Line = Line(kind: LineType, text: string)

  datatype Chunk = Chunk(srcPos: nat, dstPos: nat, lines: seq<Line>)

  datatype Patch = Patch(src: string, dst: string, chunks: seq<Chunk>)

  // ----- numbers -------------------------------------------------------------

  predicate IsDigit(c: char) {
    '0' <= c <= '9'
  }

  function DigitChar(d: nat): char
    requires d < 10
  {
    ('0' as int + d) as char
  }

  function DigitValue(c: char): nat
    requires IsDigit(c)
  {
    c as int - '0' as int
  }

  /** `%d` of a natural number. */
  function Decimal(n: nat): string {
    if n < 10 then [DigitChar(n)] else Decimal(n / 10) + [DigitChar(n % 10)]
  }

  predicate AllDigits(s: string) {
    forall i :: 0 <= i < |s| ==> IsDigit(s[i])
  }

  /** `int` of a string of digits. */
  function IntOf(s: string): nat
    requires AllDigits(s)
  {
    if s == "" then 0 else 10 * IntOf(s[..|s| - 1]) + DigitValue(s[|s| - 1])
  }

  lemma {:induction false} DecimalDigits(n: nat)
    ensures Decimal(n) != "" && AllDigits(Decimal(n))
    ensures IntOf(Decimal(n)) == n
    ensures n > 0 ==> Decimal(n)[0] != '0'
  {
    if n >= 10 {
      DecimalDigits(n / 10);
      var s := Decimal(n);
      assert s[..|s| - 1] == Decimal(n / 10);
    } else {
      assert Decimal(n)[..0] == "";
    }
  }

  /** The longest run of digits that `s` begins with. */
  function Digits(s: string): (d: string)
    ensures d <= s && AllDigits(d)
  {
    if s == "" || !IsDigit(s[0]) then "" else [s[0]] + Digits(s[1..])
  }

  lemma {:induction false} DigitsOf(d: string, rest: string)
    requires AllDigits(d) && (rest == "" || !IsDigit(rest[0]))
    ensures Digits(d + rest) == d
  {
    if d == "" {
      assert d + rest == rest;
    } else {
      assert (d + rest)[1..] == d[1..] + rest;
      DigitsOf(d[1..], rest);
    }
  }

  // ----- what a line of input matches ------------------------------------------

  /** A line without its newline. */
  function Body(line: string): string {
    if line != "" && line[|line| - 1] == '\n' then line[..|line| - 1] else line
  }

  /** The group of `^<lead>(.*)$`: a dot matches no newline, and the end may be followed by one. */
  function MatchLead(lead: string, line: string): Option<string> {
    if lead <= Body(line) && '\n' !in Body(line)[|lead|..] then Some(Body(line)[|lead|..]) else None
  }

  function AfterPrefix(lead: string, s: string): Option<string> {
    if lead <= s then Some(s[|lead|..]) else None
  }

  /** A number and what follows it. */
  function MatchNumber(s: Option<string>): Option<(nat, string)> {
    if s.None? || Digits(s.value) == "" then None
    else Some((IntOf(Digits(s.value)), s.value[|Digits(s.value)|..]))
  }

  /** The four numbers of a chunk header, and what follows the match. */
  datatype HeaderMatch = HeaderMatch(srcPos: nat, srcLen: nat, dstPos: nat, dstLen: nat, rest: string)

  /** `@@ -([0-9]+),([0-9]+) \+([0-9]+),([0-9]+) @@` at the start of the line. */
  function MatchHeader(line: string): Option<HeaderMatch> {
    var n1 := MatchNumber(AfterPrefix("@@ -", line));
    if n1.None? then None else
    var n2 := MatchNumber(AfterPrefix(",", n1.value.1));
    if n2.None? then None else
    var n3 := MatchNumber(AfterPrefix(" +", n2.value.1));
    if n3.None? then None else
    var n4 := MatchNumber(AfterPrefix(",", n3.value.1));
    if n4.None? then None else
    var rest := AfterPrefix(" @@", n4.value.1);
    if rest.None? then None
    else Some(HeaderMatch(n1.value.0, n2.value.0, n3.value.0, n4.value.0, rest.value))
  }

  /** The first and the third group. */
  function MatchChunkStart(line: string): Option<(nat, nat)> {
    var m := MatchHeader(line);
    if m.Some? then Some((m.value.srcPos, m.value.dstPos)) else None
  }

  datatype Item =
    | SrcFile(name: string)
    | DstFile(name: string)
    | ChunkStart(srcPos: nat, dstPos: nat)
    | ChunkLine(line: Line)
    | NoMatch

  /** The first of the six patterns that the line matches. */
  function Classify(line: string): Item {
    if MatchLead("--- ", line).Some? then SrcFile(MatchLead("--- ", line).value)
    else if MatchLead("+++ ", line).Some? then DstFile(MatchLead("+++ ", line).value)
    else if MatchChunkStart(line).Some? then ChunkStart(MatchChunkStart(line).value.0, MatchChunkStart(line).value.1)
    else if MatchLead("-", line).Some? then ChunkLine(Line(Src, MatchLead("-", line).value))
    else if MatchLead("+", line).Some? then ChunkLine(Line(Dst, MatchLead("+", line).value))
    else if MatchLead(" ", line).Some? then ChunkLine(Line(Both, MatchLead(" ", line).value))
    else NoMatch
  }

  // ----- parsing ---------------------------------------------------------------

  datatype ParseError = NoCurrentPatch | NoCurrentChunk | UnknownLine

  /** The patches so far, and which of them owns the current chunk: it is always the last chunk of its patch. */
  datatype Parsed = Parsed(patches: seq<Patch>, owner: Option<nat>)

  predicate OwnerOk(p: Parsed) {
    p.owner.Some? ==> p.owner.value < |p.patches| && p.patches[p.owner.value].chunks != []
  }

  function AddLine(chunks: seq<Chunk>, line: Line): seq<Chunk>
    requires chunks != []
  {
    var last := chunks[|chunks| - 1];
    chunks[|chunks| - 1 := last.(lines := last.lines + [line])]
  }

  function ParseItem(p: Parsed, item: Item): (r: Result<Parsed, ParseError>)
    requires OwnerOk(p)
    ensures r.Ok? ==> OwnerOk(r.value)
  {
    var n := |p.patches|;
    match item
    case SrcFile(name) => Ok(p.(patches := p.patches + [Patch(name, "", [])]))
    case DstFile(name) =>
      if n == 0 then Err(NoCurrentPatch)
      else Ok(p.(patches := p.patches[n - 1 := p.patches[n - 1].(dst := name)]))
    case ChunkStart(srcPos, dstPos) =>
      if n == 0 then Err(NoCurrentPatch)
      else
        var last := p.patches[n - 1];
        Ok(Parsed(p.patches[n - 1 := last.(chunks := last.chunks + [Chunk(srcPos, dstPos, [])])], Some(n - 1)))
    case ChunkLine(line) =>
      if p.owner == None then Err(NoCurrentChunk)
      else
        var k := p.owner.value;
        Ok(p.(patches := p.patches[k := p.patches[k].(chunks := AddLine(p.patches[k].chunks, line))]))
    case NoMatch => Err(UnknownLine)
  }

  function ParseLines(p: Parsed, lines: seq<string>): (r: Result<Parsed, ParseError>)
    requires OwnerOk(p)
    ensures r.Ok? ==> OwnerOk(r.value)
    decreases |lines|
  {
    if lines == [] then Ok(p)
    else
      var next := ParseItem(p, Classify(lines[0]));
      if next.Ok? then ParseLines(next.value, lines[1..]) else next
  }

  const NOTHING := Parsed([], None)

  function ParsePatchset(lines: seq<string>): Result<seq<Patch>, ParseError> {
    var r := ParseLines(NOTHING, lines);
    if r.Ok? then Ok(r.value.patches) else Err(r.error)
  }

  // ----- when parsing raises -----------------------------------------------------

  ghost predicate FileBefore(lines: seq<string>, k: nat) {
    exists j :: 0 <= j < k && j < |lines| && Classify(lines[j]).SrcFile?
  }

  ghost predicate ChunkBefore(lines: seq<string>, k: nat) {
    exists j :: 0 <= j < k && j < |lines| && Classify(lines[j]).ChunkStart?
  }

  /** A line of no kind, a second file name or a chunk with no first file name before it, or a chunk line with no
      chunk before it. */
  ghost predicate BadLine(lines: seq<string>, k: nat)
    requires k < |lines|
  {
    match Classify(lines[k])
    case SrcFile(_) => false
    case DstFile(_) => !FileBefore(lines, k)
    case ChunkStart(_, _) => !FileBefore(lines, k)
    case ChunkLine(_) => !ChunkBefore(lines, k)
    case NoMatch => true
  }

  function ErrorOf(item: Item): ParseError {
    if item.ChunkLine? then NoCurrentChunk else if item.NoMatch? then UnknownLine else NoCurrentPatch
  }

  /** The first bad line from `i` on. */
  ghost predicate FirstBad(lines: seq<string>, i: nat, k: nat) {
    i <= k < |lines| && BadLine(lines, k) && forall j :: i <= j < k ==> !BadLine(lines, j)
  }

  lemma BeforeStep(lines: seq<string>, i: nat)
    requires i < |lines|
    ensures FileBefore(lines, i + 1) <==> FileBefore(lines, i) || Classify(lines[i]).SrcFile?
    ensures ChunkBefore(lines, i + 1) <==> ChunkBefore(lines, i) || Classify(lines[i]).ChunkStart?
  {
    hide Classify;
  }

  lemma {:induction false} RaisesFrom(p: Parsed, lines: seq<string>, i: nat)
    requires OwnerOk(p) && i <= |lines|
    requires |p.patches| > 0 <==> FileBefore(lines, i)
    requires p.owner != None <==> ChunkBefore(lines, i)
    ensures var r := ParseLines(p, lines[i..]);
      && (r.Ok? ==> forall k :: i <= k < |lines| ==> !BadLine(lines, k))
      && (r.Err? ==> exists k: nat :: FirstBad(lines, i, k) && r.error == ErrorOf(Classify(lines[k])))
    decreases |lines| - i
  {
    hide Classify, FileBefore, ChunkBefore, AddLine;
    if i < |lines| {
      assert lines[i..][0] == lines[i] && lines[i..][1..] == lines[i + 1..];
      BeforeStep(lines, i);
      var next := ParseItem(p, Classify(lines[i]));
      if next.Ok? {
        RaisesFrom(next.value, lines, i + 1);
        var r := ParseLines(next.value, lines[i + 1..]);
        if r.Err? {
          var k: nat :| FirstBad(lines, i + 1, k) && r.error == ErrorOf(Classify(lines[k]));
          assert FirstBad(lines, i, k);
        }
      } else {
        assert FirstBad(lines, i, i);
      }
    }
  }

  /** Parsing raises if and only if there is a bad line, and then what the first one calls for. */
  lemma ParseRaises(lines: seq<string>)
    ensures var r := ParsePatchset(lines);
      && (r.Ok? <==> forall k :: 0 <= k < |lines| ==> !BadLine(lines, k))
      && (r.Err? ==> exists k: nat :: FirstBad(lines, 0, k) && r.error == ErrorOf(Classify(lines[k])))
  {
    hide BadLine, Classify;
    assert lines[0..] == lines;
    RaisesFrom(NOTHING, lines, 0);
  }

  // ----- writing ---------------------------------------------------------------

  predicate IsSrc(line: Line) {
    line.kind == Src || line.kind == Both
  }

  predicate IsDst(line: Line) {
    line.kind == Dst || line.kind == Both
  }

  function SrcLen(lines: seq<Line>): nat {
    if lines == [] then 0 else SrcLen(lines[..|lines| - 1]) + if IsSrc(lines[|lines| - 1]) then 1 else 0
  }

  function DstLen(lines: seq<Line>): nat {
    if lines == [] then 0 else DstLen(lines[..|lines| - 1]) + if IsDst(lines[|lines| - 1]) then 1 else 0
  }

  /** What a line writes: nothing, if its type was never set. */
  function WriteLine(line: Line): string {
    match line.kind
    case Src => "-" + line.text + "\n"
    case Dst => "+" + line.text + "\n"
    case Both => " " + line.text + "\n"
    case Unset => ""
  }

  function Header(a: nat, b: nat, c: nat, d: nat): string {
    "@@ -" + (Decimal(a) + ("," + (Decimal(b) + (" +" + (Decimal(c) + ("," + (Decimal(d) + " @@\n")))))))
  }

  function WriteHeader(chunk: Chunk): string {
    Header(chunk.srcPos, SrcLen(chunk.lines), chunk.dstPos, DstLen(chunk.lines))
  }

  ghost predicate LinesOk(lines: seq<Line>) {
    forall i :: 0 <= i < |lines| ==> lines[i].kind != Unset && '\n' !in lines[i].text
  }

  ghost predicate ChunksOk(chunks: seq<Chunk>) {
    forall i :: 0 <= i < |chunks| ==> LinesOk(chunks[i].lines)
  }

  /** Patches of whole lines: every line has its type, and no text or file name has a newline in it. */
  ghost predicate PatchesOk(patches: seq<Patch>) {
    forall i :: 0 <= i < |patches| ==>
      '\n' !in patches[i].src && '\n' !in patches[i].dst && ChunksOk(patches[i].chunks)
  }

  ghost function WriteLines(lines: seq<Line>): seq<string> {
    seq(|lines|, i requires 0 <= i < |lines| => WriteLine(lines[i]))
  }

  ghost function WriteChunks(chunks: seq<Chunk>): seq<string> {
    if chunks == [] then [] else [WriteHeader(chunks[0])] + WriteLines(chunks[0].lines) + WriteChunks(chunks[1..])
  }

  function SrcName(name: string): string {
    "--- " + name + "\n"
  }

  function DstName(name: string): string {
    "+++ " + name + "\n"
  }

  /** How many lines have a type before the first that has none. */
  function Typed(lines: seq<Line>): (k: nat)
    ensures k <= |lines|
    ensures forall i :: 0 <= i < k ==> lines[i].kind != Unset
    ensures k < |lines| ==> lines[k].kind == Unset
  {
    if lines == [] || lines[0].kind == Unset then 0 else 1 + Typed(lines[1..])
  }

  lemma StartWritten(chunk: Chunk)
    ensures WriteHeader(chunk) == Header(chunk.srcPos, SrcLen(chunk.lines), chunk.dstPos, DstLen(chunk.lines))
    ensures WriteLines(chunk.lines[..0]) == []
  {
  }

  lemma TypedUpTo(chunk: Chunk, k: nat)
    requires k <= |chunk.lines| && forall j :: 0 <= j < k ==> chunk.lines[j].kind != Unset
    requires k < |chunk.lines| ==> chunk.lines[k].kind == Unset
    ensures Typed(chunk.lines) == k
    ensures WriteTypedLines(chunk) == [WriteHeader(chunk)] + WriteLines(chunk.lines[..k])
  {
  }

  ghost predicate AllTyped(chunks: seq<Chunk>) {
    forall i :: 0 <= i < |chunks| ==> Typed(chunks[i].lines) == |chunks[i].lines|
  }

  ghost function WriteTypedLines(chunk: Chunk): seq<string> {
    [WriteHeader(chunk)] + WriteLines(chunk.lines[..Typed(chunk.lines)])
  }

  /** What is written of some chunks up to the first line without a type. */
  ghost function WriteTyped(chunks: seq<Chunk>): seq<string> {
    if chunks == [] then []
    else
      WriteTypedLines(chunks[0]) +
      if Typed(chunks[0].lines) == |chunks[0].lines| then WriteTyped(chunks[1..]) else []
  }

  /** If all lines have a type, everything is written. */
  lemma {:induction false} AllTypedWritten(chunks: seq<Chunk>)
    requires AllTyped(chunks)
    ensures WriteTyped(chunks) == WriteChunks(chunks)
    decreases |chunks|
  {
    hide WriteHeader, WriteLines;
    if chunks != [] {
      assert chunks[0].lines[..|chunks[0].lines|] == chunks[0].lines;
      AllTypedWritten(chunks[1..]);
    }
  }

  lemma OkIsTyped(chunks: seq<Chunk>)
    requires ChunksOk(chunks)
    ensures AllTyped(chunks)
  {
    forall i | 0 <= i < |chunks| ensures Typed(chunks[i].lines) == |chunks[i].lines| {
      assert LinesOk(chunks[i].lines);
    }
  }

  /** One chunk more, behind chunks that were written completely. */
  lemma {:induction false} WriteTypedAppend(chunks: seq<Chunk>, chunk: Chunk)
    requires AllTyped(chunks)
    ensures WriteTyped(chunks + [chunk]) == WriteTyped(chunks) + WriteTypedLines(chunk)
    decreases |chunks|
  {
    hide WriteTypedLines;
    var more := chunks + [chunk];
    if chunks == [] {
      assert more[1..] == [] && WriteTyped([]) == [];
    } else {
      assert more[1..] == chunks[1..] + [chunk];
      WriteTypedAppend(chunks[1..], chunk);
    }
  }

  lemma NothingTyped(chunks: seq<Chunk>)
    ensures AllTyped(chunks[..0]) && WriteTyped(chunks[..0]) == []
  {
  }

  lemma TypedMore(chunks: seq<Chunk>, i: nat)
    requires i < |chunks| && AllTyped(chunks[..i]) && Typed(chunks[i].lines) == |chunks[i].lines|
    ensures AllTyped(chunks[..i + 1])
    ensures WriteTyped(chunks[..i + 1]) == WriteTyped(chunks[..i]) + WriteTypedLines(chunks[i])
  {
    hide WriteTypedLines;
    WriteTypedAppend(chunks[..i], chunks[i]);
    assert chunks[..i + 1] == chunks[..i] + [chunks[i]];
  }

  lemma UntypedAt(chunks: seq<Chunk>, i: nat)
    requires i < |chunks| && Typed(chunks[i].lines) < |chunks[i].lines|
    ensures !AllTyped(chunks)
  {
  }

  lemma WriteLinesAppend(lines: seq<Line>, i: nat)
    requires i < |lines|
    ensures WriteLines(lines[..i + 1]) == WriteLines(lines[..i]) + [WriteLine(lines[i])]
  {
    hide WriteLine;
  }

  /** A chunk that is not written completely ends it. */
  lemma {:induction false} WriteTypedStops(chunks: seq<Chunk>, i: nat)
    requires i < |chunks| && AllTyped(chunks[..i]) && Typed(chunks[i].lines) < |chunks[i].lines|
    ensures WriteTyped(chunks) == WriteTyped(chunks[..i]) + WriteTypedLines(chunks[i])
    decreases i
  {
    hide WriteTypedLines;
    if i == 0 {
      assert chunks[..0] == [];
    } else {
      assert chunks[..i][0] == chunks[0] && chunks[..i][1..] == chunks[1..][..i - 1];
      WriteTypedStops(chunks[1..], i - 1);
    }
  }

  ghost function WritePatch(patch: Patch): seq<string> {
    [SrcName(patch.src), DstName(patch.dst)] + WriteChunks(patch.chunks)
  }

  ghost function WritePatches(patches: seq<Patch>): seq<string> {
    if patches == [] then [] else WritePatch(patches[0]) + WritePatches(patches[1..])
  }

  // ----- what is written is read as what it was ----------------------------------

  /** The two kinds of line that are taken for a file name when they are read back. */
  predicate LooksLikeHeader(line: Line) {
    (line.kind == Src && "-- " <= line.text) || (line.kind == Dst && "++ " <= line.text)
  }

  lemma MatchLeadOf(lead: string, s: string)
    requires '\n' !in s
    ensures MatchLead(lead, s + "\n") == if lead <= s then Some(s[|lead|..]) else None
  {
  }

  lemma ClassifyLine(line: Line)
    requires line.kind != Unset && '\n' !in line.text
    ensures Classify(WriteLine(line)) ==
      if line.kind == Src && "-- " <= line.text then SrcFile(line.text[3..])
      else if line.kind == Dst && "++ " <= line.text then DstFile(line.text[3..])
      else ChunkLine(line)
  {
    hide MatchLead, MatchChunkStart;
    var sign := match line.kind case Src => "-" case Dst => "+" case Both => " ";
    var s := sign + line.text;
    assert WriteLine(line) == s + "\n";
    MatchSign(sign, "-", line.text);
    MatchSign(sign, "+", line.text);
    MatchSign(sign, " ", line.text);
    MatchName(sign, "-", "-- ", line.text);
    MatchName(sign, "+", "++ ", line.text);
    assert "--- " == "-" + "-- " && "+++ " == "+" + "++ ";
    NoChunkStart(s + "\n");
  }

  lemma MatchSign(sign: string, c: string, text: string)
    requires |sign| == |c| == 1 && '\n' !in sign + text
    ensures MatchLead(c, sign + text + "\n") == if sign == c then Some(text) else None
  {
    var s := sign + text;
    MatchLeadOf(c, s);
    hide MatchLead;
    assert s[1..] == text;
    assert s[0] == sign[0];
  }

  lemma MatchName(sign: string, c: string, lead: string, text: string)
    requires |sign| == |c| == 1 && '\n' !in sign + text
    ensures MatchLead(c + lead, sign + text + "\n") ==
      if sign == c && lead <= text then Some(text[|lead|..]) else None
  {
    MatchLeadOf(c + lead, sign + text);
    hide MatchLead;
    PrefixBehind(sign, c, lead, text);
  }

  lemma NoChunkStart(line: string)
    requires line != "" && line[0] != '@'
    ensures MatchChunkStart(line) == None
  {
    assert AfterPrefix("@@ -", line) == None;
  }

  lemma PrefixBehind(sign: string, c: string, lead: string, text: string)
    requires |sign| == |c| == 1
    ensures c + lead <= sign + text <==> sign == c && lead <= text
    ensures lead <= text ==> (sign + text)[|c + lead|..] == text[|lead|..]
  {
    var s := sign + text;
    assert s[1..] == text;
    if lead <= text {
      assert text == lead + text[|lead|..];
      assert s == sign + lead + text[|lead|..];
    }
    if c + lead <= s {
      assert s[..|lead| + 1] == c + lead;
      assert sign == s[..1] == c && s[1..][..|lead|] == lead;
    }
  }

  lemma ClassifyHeaders(name: string)
    requires '\n' !in name
    ensures Classify(SrcName(name)) == SrcFile(name)
    ensures Classify(DstName(name)) == DstFile(name)
  {
    MatchLeadOf("--- ", "--- " + name);
    MatchLeadOf("+++ ", "+++ " + name);
    assert ("--- " + name)[4..] == name && ("+++ " + name)[4..] == name;
    NoMatchOnHead("--- ", DstName(name));
    hide MatchLead, MatchChunkStart;
  }

  lemma NumberOf(n: nat, rest: string)
    requires rest != "" && !IsDigit(rest[0])
    ensures MatchNumber(Some(Decimal(n) + rest)) == Some((n, rest))
  {
    DecimalDigits(n);
    DigitsOf(Decimal(n), rest);
    assert (Decimal(n) + rest)[|Decimal(n)|..] == rest;
  }

  lemma AfterOf(lead: string, rest: string)
    ensures AfterPrefix(lead, lead + rest) == Some(rest)
  {
  }

  lemma HeaderOf(a: nat, b: nat, c: nat, d: nat)
    ensures MatchHeader(Header(a, b, c, d)) == Some(HeaderMatch(a, b, c, d, "\n"))
  {
    hide MatchNumber, AfterPrefix, Decimal;
    var r4 := " @@\n";
    var r3 := "," + (Decimal(d) + r4);
    var r2 := " +" + (Decimal(c) + r3);
    var r1 := "," + (Decimal(b) + r2);
    AfterOf("@@ -", Decimal(a) + r1);
    NumberOf(a, r1);
    AfterOf(",", Decimal(b) + r2);
    NumberOf(b, r2);
    AfterOf(" +", Decimal(c) + r3);
    NumberOf(c, r3);
    AfterOf(",", Decimal(d) + r4);
    NumberOf(d, r4);
    assert r4 == " @@" + "\n";
    AfterOf(" @@", "\n");
  }

  /** The line is a chunk header with the two positions, each followed by the number of lines on its side. */
  ghost predicate IsHeaderOf(line: string, chunk: Chunk) {
    MatchHeader(line) == Some(HeaderMatch(
      chunk.srcPos, |Positions(chunk.lines, Src)|, chunk.dstPos, |Positions(chunk.lines, Dst)|, "\n"))
  }

  lemma ChunkStartOf(chunk: Chunk)
    ensures IsHeaderOf(WriteHeader(chunk), chunk)
    ensures MatchChunkStart(WriteHeader(chunk)) == Some((chunk.srcPos, chunk.dstPos))
  {
    hide MatchHeader, Header;
    HeaderOf(chunk.srcPos, SrcLen(chunk.lines), chunk.dstPos, DstLen(chunk.lines));
    HeaderLengths(chunk.lines);
  }

  lemma NoMatchOnHead(lead: string, s: string)
    requires lead != "" && s != "" && s[0] != lead[0]
    ensures MatchLead(lead, s) == None
  {
  }

  lemma ClassifyChunkHeader(chunk: Chunk)
    ensures Classify(WriteHeader(chunk)) == ChunkStart(chunk.srcPos, chunk.dstPos)
  {
    var h := WriteHeader(chunk);
    ChunkStartOf(chunk);
    HeaderHead(chunk.srcPos, SrcLen(chunk.lines), chunk.dstPos, DstLen(chunk.lines));
    hide Header, MatchChunkStart, MatchLead;
    NoMatchOnHead("--- ", h);
    NoMatchOnHead("+++ ", h);
  }

  lemma HeaderHead(a: nat, b: nat, c: nat, d: nat)
    ensures Header(a, b, c, d) != "" && Header(a, b, c, d)[0] == '@'
  {
  }

  // ----- reading back --------------------------------------------------------------

  lemma {:induction false} ParseConcat(p: Parsed, a: seq<string>, b: seq<string>)
    requires OwnerOk(p) && ParseLines(p, a).Ok?
    ensures ParseLines(p, a + b) == ParseLines(ParseLines(p, a).value, b)
    decreases |a|
  {
    hide Classify, ParseItem, OwnerOk;
    if a == [] {
      assert a + b == b;
    } else {
      assert (a + b)[1..] == a[1..] + b;
      ParseConcat(ParseItem(p, Classify(a[0])).value, a[1..], b);
    }
  }

  lemma ParseOne(p: Parsed, line: string)
    requires OwnerOk(p)
    ensures ParseLines(p, [line]) == ParseItem(p, Classify(line))
  {
  }

  /** One line of input, in the middle of the list. */
  lemma ParseStep(p: Parsed, lines: seq<string>, i: nat)
    requires OwnerOk(p) && i < |lines|
    ensures var next := ParseItem(p, Classify(lines[i]));
      ParseLines(p, lines[i..]) == if next.Ok? then ParseLines(next.value, lines[i + 1..]) else next
  {
  }

  lemma ParseEnd(p: Parsed, lines: seq<string>)
    requires OwnerOk(p)
    ensures ParseLines(p, lines[|lines|..]) == Ok(p)
    ensures ParseLines(p, lines[0..]) == ParseLines(p, lines)
  {
  }

  /** The lines that raise: a name or a chunk before any patch, a chunk's line before any chunk, and junk. */
  lemma ParseItemErrors(p: Parsed, item: Item)
    requires OwnerOk(p)
    ensures ParseItem(p, item).Err? <==>
      || ((item.DstFile? || item.ChunkStart?) && p.patches == [])
      || (item.ChunkLine? && p.owner == None)
      || item.NoMatch?
    ensures ParseItem(p, item).Err? ==>
      var expected := if item.NoMatch? then UnknownLine else if item.ChunkLine? then NoCurrentChunk else NoCurrentPatch;
      ParseItem(p, item).error == expected
  {
  }

  /** A chunk's start changes only the last patch, at the end of its chunks. */
  lemma ParseChunkStart(p: Parsed, srcPos: nat, dstPos: nat)
    requires OwnerOk(p) && p.patches != []
    ensures var r := ParseItem(p, ChunkStart(srcPos, dstPos));
      var n := |p.patches| - 1;
      && r.Ok? && OwnerOk(r.value) && r.value.owner == Some(n) && |r.value.patches| == n + 1
      && (forall i :: 0 <= i < n ==> r.value.patches[i] == p.patches[i])
      && r.value.patches[n].src == p.patches[n].src && r.value.patches[n].dst == p.patches[n].dst
      && r.value.patches[n].chunks == p.patches[n].chunks + [Chunk(srcPos, dstPos, [])]
  {
  }

  lemma ParseSrcFile(p: Parsed, name: string)
    requires OwnerOk(p)
    ensures ParseItem(p, SrcFile(name)) == Ok(Parsed(p.patches + [Patch(name, "", [])], p.owner))
    ensures OwnerOk(Parsed(p.patches + [Patch(name, "", [])], p.owner))
  {
  }

  /** A line of a chunk changes only the last chunk of the owner, and that only at its end. */
  lemma ParseChunkLine(p: Parsed, line: Line)
    requires OwnerOk(p) && p.owner.Some?
    ensures var r := ParseItem(p, ChunkLine(line));
      var k := p.owner.value;
      var n := |p.patches[k].chunks| - 1;
      && r.Ok? && OwnerOk(r.value) && r.value.owner == p.owner && |r.value.patches| == |p.patches|
      && (forall i :: 0 <= i < |p.patches| && i != k ==> r.value.patches[i] == p.patches[i])
      && r.value.patches[k].src == p.patches[k].src && r.value.patches[k].dst == p.patches[k].dst
      && |r.value.patches[k].chunks| == n + 1
      && (forall a :: 0 <= a < n ==> r.value.patches[k].chunks[a] == p.patches[k].chunks[a])
      && r.value.patches[k].chunks[n] == p.patches[k].chunks[n].(lines := p.patches[k].chunks[n].lines + [line])
  {
  }

  ghost predicate Plain(lines: seq<Line>) {
    forall i :: 0 <= i < |lines| ==> !LooksLikeHeader(lines[i])
  }

  /** No removed line starts with `-- ` and no added line with `++ `. */
  ghost predicate NoFalseHeaders(patches: seq<Patch>) {
    forall i, j :: 0 <= i < |patches| && 0 <= j < |patches[i].chunks| ==> Plain(patches[i].chunks[j].lines)
  }

  /** The parser inside a chunk of the patch that is being read. */
  function InChunk(done: seq<Patch>, patch: Patch): Parsed {
    Parsed(done + [patch], Some(|done|))
  }

  lemma ReadLine(done: seq<Patch>, patch: Patch, line: Line)
    requires patch.chunks != [] && line.kind != Unset && '\n' !in line.text && !LooksLikeHeader(line)
    ensures ParseItem(InChunk(done, patch), Classify(WriteLine(line)))
         == Ok(InChunk(done, patch.(chunks := AddLine(patch.chunks, line))))
  {
    ClassifyLine(line);
    hide Classify, WriteLine, AddLine;
    var next := patch.(chunks := AddLine(patch.chunks, line));
    assert (done + [patch])[|done| := next] == done + [next];
  }

  function AddLines(chunks: seq<Chunk>, lines: seq<Line>): seq<Chunk>
    requires chunks != []
  {
    var last := chunks[|chunks| - 1];
    chunks[|chunks| - 1 := last.(lines := last.lines + lines)]
  }

  lemma AddLinesStep(chunks: seq<Chunk>, lines: seq<Line>)
    requires chunks != [] && lines != []
    ensures AddLines(AddLine(chunks, lines[0]), lines[1..]) == AddLines(chunks, lines)
  {
    var before := chunks[|chunks| - 1].lines;
    assert before + [lines[0]] + lines[1..] == before + lines;
  }

  lemma {:induction false} ReadLines(done: seq<Patch>, patch: Patch, lines: seq<Line>)
    requires patch.chunks != [] && LinesOk(lines) && Plain(lines)
    ensures ParseLines(InChunk(done, patch), WriteLines(lines))
         == Ok(InChunk(done, patch.(chunks := AddLines(patch.chunks, lines))))
    decreases |lines|
  {
    hide Classify, WriteLine, LooksLikeHeader, ParseItem;
    if lines == [] {
      assert patch.chunks[|patch.chunks| - 1].lines + lines == patch.chunks[|patch.chunks| - 1].lines;
      assert AddLines(patch.chunks, lines) == patch.chunks;
    } else {
      assert WriteLines(lines)[1..] == WriteLines(lines[1..]);
      ReadLine(done, patch, lines[0]);
      AddLinesStep(patch.chunks, lines);
      hide AddLine, AddLines;
      ReadLines(done, patch.(chunks := AddLine(patch.chunks, lines[0])), lines[1..]);
    }
  }

  lemma ReadChunk(done: seq<Patch>, patch: Patch, owner: Option<nat>, chunk: Chunk)
    requires OwnerOk(Parsed(done + [patch], owner)) && LinesOk(chunk.lines) && Plain(chunk.lines)
    ensures ParseLines(Parsed(done + [patch], owner), [WriteHeader(chunk)] + WriteLines(chunk.lines))
         == Ok(InChunk(done, patch.(chunks := patch.chunks + [chunk])))
  {
    var p := Parsed(done + [patch], owner);
    var begun := patch.(chunks := patch.chunks + [chunk.(lines := [])]);
    ClassifyChunkHeader(chunk);
    hide Classify, WriteHeader;
    ParseOne(p, WriteHeader(chunk));
    assert p.patches[|done| := begun] == done + [begun];
    hide ParseLines, WriteLines, Plain, LinesOk;
    ParseConcat(p, [WriteHeader(chunk)], WriteLines(chunk.lines));
    ReadLines(done, begun, chunk.lines);
    assert [] + chunk.lines == chunk.lines;
    assert AddLines(begun.chunks, chunk.lines) == patch.chunks + [chunk];
  }

  lemma {:induction false} ReadChunks(done: seq<Patch>, patch: Patch, owner: Option<nat>, chunks: seq<Chunk>)
    requires OwnerOk(Parsed(done + [patch], owner)) && ChunksOk(chunks)
    requires forall j :: 0 <= j < |chunks| ==> Plain(chunks[j].lines)
    ensures ParseLines(Parsed(done + [patch], owner), WriteChunks(chunks))
         == Ok(Parsed(done + [patch.(chunks := patch.chunks + chunks)], if chunks == [] then owner else Some(|done|)))
    decreases |chunks|
  {
    hide Plain, LinesOk, WriteHeader, WriteLines, ParseItem, Classify;
    if chunks == [] {
      assert patch.chunks + chunks == patch.chunks;
    } else {
      hide ParseLines;
      var p := Parsed(done + [patch], owner);
      var next := patch.(chunks := patch.chunks + [chunks[0]]);
      ReadChunk(done, patch, owner, chunks[0]);
      ReadChunks(done, next, Some(|done|), chunks[1..]);
      ParseConcat(p, [WriteHeader(chunks[0])] + WriteLines(chunks[0].lines), WriteChunks(chunks[1..]));
      assert patch.chunks + [chunks[0]] + chunks[1..] == patch.chunks + chunks;
    }
  }

  lemma ReadNames(done: seq<Patch>, owner: Option<nat>, patch: Patch)
    requires OwnerOk(Parsed(done, owner)) && '\n' !in patch.src && '\n' !in patch.dst
    ensures ParseLines(Parsed(done, owner), [SrcName(patch.src), DstName(patch.dst)])
         == Ok(Parsed(done + [Patch(patch.src, patch.dst, [])], owner))
  {
    hide Classify, SrcName, DstName;
    var p := Parsed(done, owner);
    var named, both := Patch(patch.src, "", []), Patch(patch.src, patch.dst, []);
    var l1, l2 := SrcName(patch.src), DstName(patch.dst);
    ClassifyHeaders(patch.src);
    ClassifyHeaders(patch.dst);
    ParseOne(p, l1);
    ParseOne(Parsed(done + [named], owner), l2);
    assert (done + [named])[|done| := both] == done + [both];
    assert [l1, l2] == [l1] + [l2];
    hide ParseLines;
    ParseConcat(p, [l1], [l2]);
  }

  lemma ReadPatch(done: seq<Patch>, owner: Option<nat>, patch: Patch)
    requires OwnerOk(Parsed(done, owner)) && '\n' !in patch.src && '\n' !in patch.dst && ChunksOk(patch.chunks)
    requires forall j :: 0 <= j < |patch.chunks| ==> Plain(patch.chunks[j].lines)
    ensures ParseLines(Parsed(done, owner), WritePatch(patch))
         == Ok(Parsed(done + [patch], if patch.chunks == [] then owner else Some(|done|)))
  {
    hide ParseLines, WriteChunks, Plain, ChunksOk;
    var p := Parsed(done, owner);
    var both := Patch(patch.src, patch.dst, []);
    ReadNames(done, owner, patch);
    ParseConcat(p, [SrcName(patch.src), DstName(patch.dst)], WriteChunks(patch.chunks));
    ReadChunks(done, both, owner, patch.chunks);
    assert [] + patch.chunks == patch.chunks;
  }

  lemma {:induction false} ReadPatches(done: seq<Patch>, owner: Option<nat>, patches: seq<Patch>)
    requires OwnerOk(Parsed(done, owner)) && PatchesOk(patches) && NoFalseHeaders(patches)
    ensures var r := ParseLines(Parsed(done, owner), WritePatches(patches));
            r.Ok? && r.value.patches == done + patches
    decreases |patches|
  {
    hide WritePatch, Plain, ChunksOk, ParseItem, Classify;
    if patches == [] {
      assert done + patches == done;
    } else {
      hide ParseLines;
      var first, rest := patches[0], patches[1..];
      assert NoFalseHeaders(rest) by {
        forall i, j | 0 <= i < |rest| && 0 <= j < |rest[i].chunks| ensures Plain(rest[i].chunks[j].lines) {
          assert rest[i] == patches[i + 1];
        }
      }
      ReadPatch(done, owner, first);
      var next := Parsed(done + [first], if first.chunks == [] then owner else Some(|done|));
      ReadPatches(next.patches, next.owner, rest);
      ParseConcat(Parsed(done, owner), WritePatch(first), WritePatches(rest));
      assert done + [first] + rest == done + patches;
    }
  }

  // ----- when it is not ------------------------------------------------------------

  /** How many lines of input are read as lines of a chunk. */
  function CountLines(lines: seq<string>): nat {
    if lines == [] then 0 else (if Classify(lines[0]).ChunkLine? then 1 else 0) + CountLines(lines[1..])
  }

  function LinesOfChunks(chunks: seq<Chunk>): nat {
    if chunks == [] then 0 else |chunks[0].lines| + LinesOfChunks(chunks[1..])
  }

  function LinesOfPatches(patches: seq<Patch>): nat {
    if patches == [] then 0 else LinesOfChunks(patches[0].chunks) + LinesOfPatches(patches[1..])
  }

  lemma {:induction false} CountConcat(a: seq<string>, b: seq<string>)
    ensures CountLines(a + b) == CountLines(a) + CountLines(b)
  {
    hide Classify;
    if a == [] {
      assert a + b == b;
    } else {
      assert (a + b)[1..] == a[1..] + b;
      CountConcat(a[1..], b);
    }
  }

  lemma {:induction false} LinesOfChunksSet(chunks: seq<Chunk>, i: nat, chunk: Chunk)
    requires i < |chunks|
    ensures LinesOfChunks(chunks[i := chunk]) == LinesOfChunks(chunks) - |chunks[i].lines| + |chunk.lines|
  {
    if i > 0 {
      assert chunks[i := chunk][1..] == chunks[1..][i - 1 := chunk];
      LinesOfChunksSet(chunks[1..], i - 1, chunk);
    }
  }

  lemma {:induction false} LinesOfChunksAppend(chunks: seq<Chunk>, chunk: Chunk)
    ensures LinesOfChunks(chunks + [chunk]) == LinesOfChunks(chunks) + |chunk.lines|
  {
    if chunks != [] {
      assert (chunks + [chunk])[1..] == chunks[1..] + [chunk];
      LinesOfChunksAppend(chunks[1..], chunk);
    }
  }

  lemma {:induction false} LinesOfPatchesSet(patches: seq<Patch>, i: nat, patch: Patch)
    requires i < |patches|
    ensures LinesOfPatches(patches[i := patch])
         == LinesOfPatches(patches) - LinesOfChunks(patches[i].chunks) + LinesOfChunks(patch.chunks)
  {
    if i > 0 {
      assert patches[i := patch][1..] == patches[1..][i - 1 := patch];
      LinesOfPatchesSet(patches[1..], i - 1, patch);
    }
  }

  lemma {:induction false} LinesOfPatchesAppend(patches: seq<Patch>, patch: Patch)
    ensures LinesOfPatches(patches + [patch]) == LinesOfPatches(patches) + LinesOfChunks(patch.chunks)
  {
    if patches != [] {
      assert (patches + [patch])[1..] == patches[1..] + [patch];
      LinesOfPatchesAppend(patches[1..], patch);
    }
  }

  /** Parsing neither drops nor invents a line of a chunk. */
  lemma ItemCount(p: Parsed, item: Item)
    requires OwnerOk(p) && ParseItem(p, item).Ok?
    ensures LinesOfPatches(ParseItem(p, item).value.patches)
         == LinesOfPatches(p.patches) + if item.ChunkLine? then 1 else 0
  {
    var q := ParseItem(p, item).value;
    var n := |p.patches|;
    match item
    case SrcFile(name) => LinesOfPatchesAppend(p.patches, Patch(name, "", []));
    case DstFile(_) => LinesOfPatchesSet(p.patches, n - 1, q.patches[n - 1]);
    case ChunkStart(srcPos, dstPos) =>
      LinesOfChunksAppend(p.patches[n - 1].chunks, Chunk(srcPos, dstPos, []));
      LinesOfPatchesSet(p.patches, n - 1, q.patches[n - 1]);
    case ChunkLine(line) =>
      var k := p.owner.value;
      var chunks := p.patches[k].chunks;
      LinesOfChunksSet(chunks, |chunks| - 1, AddLine(chunks, line)[|chunks| - 1]);
      LinesOfPatchesSet(p.patches, k, q.patches[k]);
  }

  lemma {:induction false} ParseCount(p: Parsed, lines: seq<string>)
    requires OwnerOk(p) && ParseLines(p, lines).Ok?
    ensures LinesOfPatches(ParseLines(p, lines).value.patches) == LinesOfPatches(p.patches) + CountLines(lines)
    decreases |lines|
  {
    hide Classify, LinesOfPatches;
    if lines != [] {
      ItemCount(p, Classify(lines[0]));
      ParseCount(ParseItem(p, Classify(lines[0])).value, lines[1..]);
    }
  }

  lemma {:induction false} WriteLinesCount(lines: seq<Line>)
    requires LinesOk(lines)
    ensures CountLines(WriteLines(lines)) <= |lines|
    ensures CountLines(WriteLines(lines)) == |lines| <==> Plain(lines)
    decreases |lines|
  {
    hide Classify, WriteLine;
    if lines != [] {
      assert WriteLines(lines)[1..] == WriteLines(lines[1..]);
      ClassifyLine(lines[0]);
      WriteLinesCount(lines[1..]);
      assert Plain(lines) <==> !LooksLikeHeader(lines[0]) && Plain(lines[1..]) by {
        assert lines == [lines[0]] + lines[1..];
      }
    }
  }

  ghost predicate AllPlain(chunks: seq<Chunk>) {
    forall j :: 0 <= j < |chunks| ==> Plain(chunks[j].lines)
  }

  lemma AllPlainStep(chunks: seq<Chunk>)
    requires chunks != []
    ensures AllPlain(chunks) <==> Plain(chunks[0].lines) && AllPlain(chunks[1..])
  {
  }

  lemma {:induction false} WriteChunksCount(chunks: seq<Chunk>)
    requires ChunksOk(chunks)
    ensures CountLines(WriteChunks(chunks)) <= LinesOfChunks(chunks)
    ensures CountLines(WriteChunks(chunks)) == LinesOfChunks(chunks) <==> AllPlain(chunks)
    decreases |chunks|
  {
    if chunks != [] {
      var head, body := [WriteHeader(chunks[0])], WriteLines(chunks[0].lines);
      ClassifyChunkHeader(chunks[0]);
      assert CountLines(head) == 0 by {
        hide Classify, WriteHeader;
        assert head[1..] == [];
      }
      hide Classify, WriteHeader, WriteLines, Plain, LinesOk, AllPlain;
      CountConcat(head, body);
      CountConcat(head + body, WriteChunks(chunks[1..]));
      WriteLinesCount(chunks[0].lines);
      WriteChunksCount(chunks[1..]);
      AllPlainStep(chunks);
    }
  }

  lemma WritePatchCount(patch: Patch)
    requires '\n' !in patch.src && '\n' !in patch.dst && ChunksOk(patch.chunks)
    ensures CountLines(WritePatch(patch)) <= LinesOfChunks(patch.chunks)
    ensures CountLines(WritePatch(patch)) == LinesOfChunks(patch.chunks) <==> AllPlain(patch.chunks)
  {
    hide Classify, AllPlain, ChunksOk, WriteChunks, SrcName, DstName;
    var l1, l2 := SrcName(patch.src), DstName(patch.dst);
    ClassifyHeaders(patch.src);
    ClassifyHeaders(patch.dst);
    assert [l1, l2][1..] == [l2] && [l2][1..] == [];
    assert CountLines([l2]) == 0;
    CountConcat([l1, l2], WriteChunks(patch.chunks));
    WriteChunksCount(patch.chunks);
  }

  lemma NoFalseHeadersStep(patches: seq<Patch>)
    requires patches != []
    ensures NoFalseHeaders(patches) <==> AllPlain(patches[0].chunks) && NoFalseHeaders(patches[1..])
  {
  }

  lemma {:induction false} WritePatchesCount(patches: seq<Patch>)
    requires PatchesOk(patches)
    ensures CountLines(WritePatches(patches)) <= LinesOfPatches(patches)
    ensures CountLines(WritePatches(patches)) == LinesOfPatches(patches) <==> NoFalseHeaders(patches)
    decreases |patches|
  {
    hide Classify, WritePatch, NoFalseHeaders, AllPlain, ChunksOk;
    if patches == [] {
      assert NoFalseHeaders(patches) by {
        EmptyHasNone(patches);
      }
    } else {
      WritePatchCount(patches[0]);
      WritePatchesCount(patches[1..]);
      CountConcat(WritePatch(patches[0]), WritePatches(patches[1..]));
      NoFalseHeadersStep(patches);
    }
  }

  lemma EmptyHasNone(patches: seq<Patch>)
    requires patches == []
    ensures NoFalseHeaders(patches)
  {
  }

  /** Reading what was written gives the same patches back if and only if no removed line starts with
      `-- ` and no added line with `++ `. */
  lemma ReadBack(patches: seq<Patch>)
    requires PatchesOk(patches)
    ensures ParsePatchset(WritePatches(patches)) == Ok(patches) <==> NoFalseHeaders(patches)
  {
    hide NoFalseHeaders, PatchesOk;
    if NoFalseHeaders(patches) {
      ReadPatches([], None, patches);
      assert [] + patches == patches;
    }
    if ParsePatchset(WritePatches(patches)) == Ok(patches) {
      ParseCount(NOTHING, WritePatches(patches));
      WritePatchesCount(patches);
    }
  }

  lemma ReadBackOne(patch: Patch)
    requires '\n' !in patch.src && '\n' !in patch.dst && ChunksOk(patch.chunks)
    ensures ParsePatchset(WritePatch(patch)) == Ok([patch]) <==> AllPlain(patch.chunks)
  {
    hide WritePatch, ParsePatchset, Plain;
    assert [patch][1..] == [];
    assert WritePatches([patch][1..]) == [];
    assert WritePatches([patch]) == WritePatch(patch) + [] == WritePatch(patch);
    NoFalseHeadersStep([patch]);
    ReadBack([patch]);
  }

  /** The smallest patch that is not read back: one removed line with the text `-- a`. */
  lemma FalseHeaderExample()
    ensures var patch := Patch("f", "f", [Chunk(1, 1, [Line(Src, "-- a")])]);
            PatchesOk([patch]) && ParsePatchset(WritePatches([patch])) != Ok([patch])
  {
    var line := Line(Src, "-- a");
    var patch := Patch("f", "f", [Chunk(1, 1, [line])]);
    assert "-- " <= line.text by {
      assert line.text == "-- " + "a";
    }
    assert LooksLikeHeader([line][0]);
    assert !Plain([patch][0].chunks[0].lines);
    ReadBack([patch]);
  }

  /** The lines that are on this side, or on both. */
  ghost function Positions(lines: seq<Line>, side: LineType): set<nat> {
    set i | 0 <= i < |lines| && (lines[i].kind == side || lines[i].kind == Both)
  }

  lemma PositionsStep(lines: seq<Line>, side: LineType)
    requires lines != []
    ensures var n := |lines| - 1;
      |Positions(lines, side)|
      == |Positions(lines[..n], side)| + if lines[n].kind == side || lines[n].kind == Both then 1 else 0
  {
    var n := |lines| - 1;
    var front := lines[..n];
    var before := Positions(front, side);
    var last := lines[n].kind == side || lines[n].kind == Both;
    forall i: nat ensures i in Positions(lines, side) <==> i in before || (i == n && last) {
      assert i < n ==> front[i] == lines[i];
    }
    if last {
      assert Positions(lines, side) == before + {n};
    } else {
      assert Positions(lines, side) == before;
    }
  }

  /** The two lengths in a chunk's header count the lines of the two sides. */
  lemma {:induction false} HeaderLengths(lines: seq<Line>)
    ensures SrcLen(lines) == |Positions(lines, Src)| && DstLen(lines) == |Positions(lines, Dst)|
  {
    if lines != [] {
      HeaderLengths(lines[..|lines| - 1]);
      PositionsStep(lines, Src);
      PositionsStep(lines, Dst);
      hide Positions;
    }
  }
}
