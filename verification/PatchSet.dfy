/** The classes PatchChunkLine, PatchChunk and Patch of check-style.py, and `parse_patchset`, which builds
    them. `Format` has the values that these objects stand for. */
module PatchSet {
  import opened Results
  import Format = PatchFormat

  datatype InvalidPatch = InvalidPatch

  class PatchChunkLine {
    var kind: Format.LineType
    var text: string

    constructor ()
      ensures kind == Format.Unset && text == ""
    {
      kind, text := Format.Unset, "";
    }

    method SetSrc(line: string)
      modifies this
      ensures kind == Format.Src && text == line
    {
      kind, text := Format.Src, line;
    }

    method SetDst(line: string)
      modifies this
      ensures kind == Format.Dst && text == line
    {
      kind, text := Format.Dst, line;
    }

    method SetBoth(line: string)
      modifies this
      ensures kind == Format.Both && text == line
    {
      kind, text := Format.Both, line;
    }

    ghost function Value(): Format.Line
      reads this
    {
      Format.Line(kind, text)
    }

    predicate IsSrc()
      reads this
    {
      kind == Format.Src || kind == Format.Both
    }

    predicate IsDst()
      reads this
    {
      kind == Format.Dst || kind == Format.Both
    }

    /** What is written to the file, or the exception. */
    method Write() returns (r: Result<string, InvalidPatch>)
      ensures r.Err? <==> kind == Format.Unset
      ensures r.Ok? ==> r.value == Format.WriteLine(Value())
      ensures kind == Format.Src ==> r == Ok("-" + text + "\n")
      ensures kind == Format.Dst ==> r == Ok("+" + text + "\n")
      ensures kind == Format.Both ==> r == Ok(" " + text + "\n")
    {
      match kind
      case Src => return Ok("-" + text + "\n");
      case Dst => return Ok("+" + text + "\n");
      case Both => return Ok(" " + text + "\n");
      case Unset => return Err(InvalidPatch);
    }
  }

  ghost function LineValues(lines: seq<PatchChunkLine>): seq<Format.Line>
    reads lines
  {
    seq(|lines|, i requires 0 <= i < |lines| reads lines => lines[i].Value())
  }

  class PatchChunk {
    var lines: seq<PatchChunkLine>
    var srcPos: nat
    var dstPos: nat

    constructor (srcPos: nat, dstPos: nat)
      ensures this.srcPos == srcPos && this.dstPos == dstPos && lines == []
    {
      this.srcPos, this.dstPos, lines := srcPos, dstPos, [];
    }

    ghost function Value(): Format.Chunk
      reads this, lines
    {
      Format.Chunk(srcPos, dstPos, LineValues(lines))
    }

    method AddLine(line: PatchChunkLine)
      modifies this`lines
      ensures lines == old(lines) + [line]
    {
      lines := lines + [line];
    }

    /** The lines on the source side, in order. */
    method Src() returns (found: seq<PatchChunkLine>)
      ensures |found| == Format.SrcLen(LineValues(lines))
      ensures forall line :: line in found ==> line in lines && line.IsSrc()
    {
      found := [];
      ghost var all := LineValues(lines);
      assert all[..0] == [];
      for i := 0 to |lines|
        invariant |found| == Format.SrcLen(all[..i])
        invariant forall line :: line in found ==> line in lines && line.IsSrc()
      {
        assert all[..i + 1][..i] == all[..i];
        if lines[i].IsSrc() {
          found := found + [lines[i]];
        }
      }
      assert all[..|lines|] == all;
    }

    /** The lines on the destination side, in order. */
    method Dst() returns (found: seq<PatchChunkLine>)
      ensures |found| == Format.DstLen(LineValues(lines))
      ensures forall line :: line in found ==> line in lines && line.IsDst()
    {
      found := [];
      ghost var all := LineValues(lines);
      assert all[..0] == [];
      for i := 0 to |lines|
        invariant |found| == Format.DstLen(all[..i])
        invariant forall line :: line in found ==> line in lines && line.IsDst()
      {
        assert all[..i + 1][..i] == all[..i];
        if lines[i].IsDst() {
          found := found + [lines[i]];
        }
      }
      assert all[..|lines|] == all;
    }

    /** The header and then every line, up to the first that has no type. */
    method Write() returns (written: seq<string>, r: Result<(), InvalidPatch>)
      ensures written == Format.WriteTypedLines(Value())
      ensures written != [] && Format.IsHeaderOf(written[0], Value())
      ensures r.Ok? <==> Format.Typed(Value().lines) == |lines|
    {
      hide Format.IsHeaderOf, Format.MatchHeader, Format.Positions, Format.Typed;
      hide Format.WriteLine, Format.WriteLines, Format.WriteTypedLines, Format.WriteHeader;
      ghost var value := Value();
      var src := Src();
      var dst := Dst();
      written := [Format.Header(srcPos, |src|, dstPos, |dst|)];
      Format.StartWritten(value);
      Format.ChunkStartOf(value);
      for i := 0 to |lines|
        invariant forall j :: 0 <= j < i ==> value.lines[j].kind != Format.Unset
        invariant written == [Format.WriteHeader(value)] + Format.WriteLines(value.lines[..i])
      {
        assert value.lines[i] == lines[i].Value();
        var line := lines[i].Write();
        if line.Err? {
          Format.TypedUpTo(value, i);
          return written, Err(InvalidPatch);
        }
        Format.WriteLinesAppend(value.lines, i);
        written := written + [line.value];
      }
      Format.TypedUpTo(value, |lines|);
      return written, Ok(());
    }
  }

  class Patch {
    var src: string
    var dst: string
    var chunks: seq<PatchChunk>

    constructor ()
      ensures src == "" && dst == "" && chunks == []
    {
      src, dst, chunks := "", "", [];
    }

    method AddChunk(chunk: PatchChunk)
      modifies this`chunks
      ensures chunks == old(chunks) + [chunk]
    {
      chunks := chunks + [chunk];
    }

    method SetSrc(name: string)
      modifies this`src
      ensures src == name
    {
      src := name;
    }

    method SetDst(name: string)
      modifies this`dst
      ensures dst == name
    {
      dst := name;
    }

    ghost function Value(): Format.Patch
      reads this, chunks, LinesOf(chunks)
    {
      Format.Patch(src, dst, ChunkValues(chunks))
    }

    /** The two names and then every chunk, up to the first line that has no type. */
    method Write() returns (written: seq<string>, r: Result<(), InvalidPatch>)
      ensures written == [Format.SrcName(src), Format.DstName(dst)] + Format.WriteTyped(Value().chunks)
      ensures |written| >= 2 && written[0] == "--- " + src + "\n" && written[1] == "+++ " + dst + "\n"
      ensures r.Ok? <==> Format.AllTyped(Value().chunks)
      ensures r.Ok? ==> written == Format.WritePatch(Value())
    {
      hide Format.IsHeaderOf, Format.WriteTypedLines, Format.WriteTyped, Format.WriteChunks, Format.AllTyped;
      written := [Format.SrcName(src), Format.DstName(dst)];
      ghost var values := ChunkValues(chunks);
      ghost var head := written;
      Format.NothingTyped(values);
      for i := 0 to |chunks|
        invariant Format.AllTyped(values[..i])
        invariant written == head + Format.WriteTyped(values[..i])
      {
        var lines, result := chunks[i].Write();
        assert values[i] == chunks[i].Value();
        written := written + lines;
        if result.Err? {
          Format.WriteTypedStops(values, i);
          Format.UntypedAt(values, i);
          assert Value().chunks == values;
          return written, Err(InvalidPatch);
        }
        Format.TypedMore(values, i);
      }
      assert values[..|chunks|] == values && Value().chunks == values;
      Format.AllTypedWritten(values);
      return written, Ok(());
    }
  }

  ghost function ChunkValues(chunks: seq<PatchChunk>): seq<Format.Chunk>
    reads chunks, LinesOf(chunks)
  {
    seq(|chunks|, i requires 0 <= i < |chunks| reads chunks, LinesOf(chunks) =>
      assert chunks[i] in chunks;
      assert forall l :: l in chunks[i].lines ==> l in LinesOf(chunks);
      chunks[i].Value())
  }

  // ----- the objects and the values they stand for ------------------------------

  ghost function Chunks(patches: seq<Patch>): set<PatchChunk>
    reads patches
  {
    set p, c | p in patches && c in p.chunks :: c
  }

  ghost function Lines(patches: seq<Patch>): set<PatchChunkLine>
    reads patches, Chunks(patches)
  {
    set c, l | c in Chunks(patches) && l in c.lines :: l
  }

  ghost function LinesOf(chunks: seq<PatchChunk>): set<PatchChunkLine>
    reads chunks
  {
    set c, l | c in chunks && l in c.lines :: l
  }

  ghost predicate ChunkIs(c: PatchChunk, v: Format.Chunk)
    reads c, c.lines
  {
    && c.srcPos == v.srcPos && c.dstPos == v.dstPos
    && |c.lines| == |v.lines|
    && forall k :: 0 <= k < |v.lines| ==> c.lines[k].kind == v.lines[k].kind && c.lines[k].text == v.lines[k].text
  }

  ghost predicate PatchIs(p: Patch, v: Format.Patch)
    reads p, p.chunks, LinesOf(p.chunks)
  {
    && p.src == v.src && p.dst == v.dst
    && |p.chunks| == |v.chunks|
    && forall a :: 0 <= a < |v.chunks| ==>
         assert p.chunks[a] in p.chunks;
         assert forall l :: l in p.chunks[a].lines ==> l in LinesOf(p.chunks);
         ChunkIs(p.chunks[a], v.chunks[a])
  }

  /** No patch and no chunk is shared. */
  ghost predicate Separate(patches: seq<Patch>)
    reads patches
  {
    && (forall i, j :: 0 <= i < j < |patches| ==> patches[i] != patches[j])
    && (forall i, a, b :: 0 <= i < |patches| && 0 <= a < b < |patches[i].chunks| ==>
          patches[i].chunks[a] != patches[i].chunks[b])
    && (forall i, j :: 0 <= i < j < |patches| ==> forall c :: c in patches[i].chunks ==> c !in patches[j].chunks)
  }

  type LineTable = map<PatchChunk, seq<PatchChunkLine>>

  /** The lines of every chunk. */
  ghost function Table(patches: seq<Patch>): LineTable
    reads patches, Chunks(patches)
  {
    map c | c in Chunks(patches) :: c.lines
  }

  ghost function LinesIn(table: LineTable): set<PatchChunkLine> {
    set c, l | c in table && l in table[c] :: l
  }

  /** No line is shared. */
  ghost predicate LinesApart(table: LineTable) {
    forall c, d, i, j ::
      c in table && d in table && 0 <= i < |table[c]| && 0 <= j < |table[d]| && table[c][i] == table[d][j]
      ==> c == d && i == j
  }

  lemma ApartAfterChunk(table: LineTable, chunk: PatchChunk)
    requires LinesApart(table) && chunk !in table
    ensures LinesApart(table[chunk := []]) && LinesIn(table[chunk := []]) == LinesIn(table)
  {
    var more := table[chunk := []];
    forall l ensures l in LinesIn(more) <==> l in LinesIn(table) {
      if l in LinesIn(table) {
        var c: PatchChunk :| c in table && l in table[c];
        assert c in more && l in more[c];
      }
    }
  }

  lemma ApartAfterLine(table: LineTable, chunk: PatchChunk, l: PatchChunkLine)
    requires LinesApart(table) && chunk in table && l !in LinesIn(table)
    ensures var more := table[chunk := table[chunk] + [l]];
      LinesApart(more) && LinesIn(more) == LinesIn(table) + {l}
  {
    var more := table[chunk := table[chunk] + [l]];
    forall c, d, i, j
      | c in more && d in more && 0 <= i < |more[c]| && 0 <= j < |more[d]| && more[c][i] == more[d][j]
      ensures c == d && i == j
    {
      assert i < |table[c]| ==> table[c][i] in table[c] && table[c][i] in LinesIn(table);
      assert j < |table[d]| ==> table[d][j] in table[d] && table[d][j] in LinesIn(table);
    }
    forall x ensures x in LinesIn(more) <==> x in LinesIn(table) || x == l {
      if x in LinesIn(table) {
        var c: PatchChunk :| c in table && x in table[c];
        assert c in more && x in more[c];
      }
      if x == l {
        assert chunk in more && l in more[chunk];
      }
    }
  }

  ghost predicate Represent(patches: seq<Patch>, currentChunk: PatchChunk?, st: Format.Parsed)
    reads patches, Chunks(patches), Lines(patches)
  {
    && Format.OwnerOk(st)
    && |patches| == |st.patches|
    && Separate(patches)
    && (forall i :: 0 <= i < |patches| ==>
          assert patches[i] in patches;
          assert forall c :: c in patches[i].chunks ==> c in Chunks(patches);
          assert forall c, l :: c in patches[i].chunks && l in c.lines ==> l in Lines(patches);
          PatchIs(patches[i], st.patches[i]))
    && (currentChunk == null <==> st.owner == None)
    && (currentChunk != null ==>
          var chunks := patches[st.owner.value].chunks;
          chunks != [] && currentChunk == chunks[|chunks| - 1])
  }

  // ----- one line of input ---------------------------------------------------------

  method AddNewPatch(ghost patches: seq<Patch>, name: string) returns (patch: Patch)
    requires Separate(patches)
    ensures fresh(patch) && patch.src == name && patch.dst == "" && patch.chunks == []
    ensures Separate(patches + [patch])
  {
    patch := new Patch();
    patch.SetSrc(name);
    ghost var more := patches + [patch];
    assert forall i :: 0 <= i < |patches| ==> more[i] == patches[i];
  }

  method NewPatch(ghost patches: seq<Patch>, ghost currentChunk: PatchChunk?, ghost st: Format.Parsed, name: string)
    returns (patch: Patch)
    requires Represent(patches, currentChunk, st)
    ensures fresh(patch) && patch.chunks == []
    ensures Represent(patches + [patch], currentChunk, Format.ParseItem(st, Format.SrcFile(name)).value)
  {
    Format.ParseSrcFile(st, name);
    hide Format.ParseItem, Format.OwnerOk, ChunkIs, Separate;
    assert forall i :: 0 <= i < |patches| ==> PatchIs(patches[i], st.patches[i]);
    patch := AddNewPatch(patches, name);
    ghost var more := patches + [patch];
    forall i | 0 <= i < |more| ensures PatchIs(more[i], (st.patches + [Format.Patch(name, "", [])])[i]) {
      if i < |patches| {
        assert old(PatchIs(patches[i], st.patches[i]));
      }
    }
  }

  method NamePatch(ghost patches: seq<Patch>, ghost currentChunk: PatchChunk?, ghost st: Format.Parsed,
                   currentPatch: Patch, name: string)
    requires Represent(patches, currentChunk, st)
    requires patches != [] && currentPatch == patches[|patches| - 1]
    modifies currentPatch`dst
    ensures Represent(patches, currentChunk, Format.ParseItem(st, Format.DstFile(name)).value)
  {
    currentPatch.SetDst(name);
  }

  method AddNewChunk(ghost patches: seq<Patch>, currentPatch: Patch, srcPos: nat, dstPos: nat)
    returns (chunk: PatchChunk)
    requires Separate(patches) && patches != [] && currentPatch == patches[|patches| - 1]
    modifies currentPatch`chunks
    ensures fresh(chunk) && chunk.srcPos == srcPos && chunk.dstPos == dstPos && chunk.lines == []
    ensures Separate(patches) && currentPatch.chunks == old(currentPatch.chunks) + [chunk]
    ensures forall i :: 0 <= i < |patches| - 1 ==> patches[i].chunks == old(patches[i].chunks)
  {
    chunk := new PatchChunk(srcPos, dstPos);
    currentPatch.AddChunk(chunk);
  }

  method NewChunk(ghost patches: seq<Patch>, ghost currentChunk: PatchChunk?, ghost st: Format.Parsed,
                  currentPatch: Patch, srcPos: nat, dstPos: nat)
    returns (chunk: PatchChunk)
    requires Represent(patches, currentChunk, st)
    requires patches != [] && currentPatch == patches[|patches| - 1]
    modifies currentPatch`chunks
    ensures fresh(chunk) && chunk.lines == [] && currentPatch.chunks == old(currentPatch.chunks) + [chunk]
    ensures Represent(patches, chunk, Format.ParseItem(st, Format.ChunkStart(srcPos, dstPos)).value)
  {
    hide Separate, Format.ParseItem;
    Format.ParseChunkStart(st, srcPos, dstPos);
    ghost var next := Format.ParseItem(st, Format.ChunkStart(srcPos, dstPos)).value;
    assert forall i :: 0 <= i < |patches| ==> PatchIs(patches[i], st.patches[i]);
    chunk := AddNewChunk(patches, currentPatch, srcPos, dstPos);
    forall i | 0 <= i < |patches| ensures PatchIs(patches[i], next.patches[i]) {
      assert old(PatchIs(patches[i], st.patches[i]));
      forall a | 0 <= a < |patches[i].chunks| ensures ChunkIs(patches[i].chunks[a], next.patches[i].chunks[a]) {
        if a < |st.patches[i].chunks| {
          assert old(ChunkIs(patches[i].chunks[a], st.patches[i].chunks[a]));
        }
      }
    }
  }

  method MakeLine(line: Format.Line) returns (l: PatchChunkLine)
    requires line.kind != Format.Unset
    ensures fresh(l) && l.kind == line.kind && l.text == line.text
  {
    l := new PatchChunkLine();
    match line.kind {
      case Src => l.SetSrc(line.text);
      case Dst => l.SetDst(line.text);
      case Both => l.SetBoth(line.text);
    }
  }

  /** The chunks that are not the current one have not changed. */
  lemma OtherChunks(patches: seq<Patch>, currentChunk: PatchChunk, st: Format.Parsed, i: nat, a: nat)
    requires Represent(patches, currentChunk, st)
    requires i < |patches| && a < |patches[i].chunks|
    ensures |st.patches[i].chunks| == |patches[i].chunks| && ChunkIs(patches[i].chunks[a], st.patches[i].chunks[a])
    ensures patches[i].chunks[a] == currentChunk <==> i == st.owner.value && a == |patches[i].chunks| - 1
  {
    assert PatchIs(patches[i], st.patches[i]);
    var k := st.owner.value;
    assert patches[i].chunks[a] in patches[i].chunks && currentChunk in patches[k].chunks;
  }

  method NewLine(ghost patches: seq<Patch>, currentChunk: PatchChunk, ghost st: Format.Parsed, line: Format.Line)
    returns (ghost l: PatchChunkLine)
    requires Represent(patches, currentChunk, st) && line.kind != Format.Unset
    modifies currentChunk`lines
    ensures fresh(l) && currentChunk.lines == old(currentChunk.lines) + [l]
    ensures Represent(patches, currentChunk, Format.ParseItem(st, Format.ChunkLine(line)).value)
  {
    ghost var next := Format.ParseItem(st, Format.ChunkLine(line)).value;
    Format.ParseChunkLine(st, line);
    hide Format.ParseItem;
    forall i, a | 0 <= i < |patches| && 0 <= a < |patches[i].chunks|
      ensures ChunkIs(patches[i].chunks[a], st.patches[i].chunks[a])
      ensures patches[i].chunks[a] == currentChunk <==> i == st.owner.value && a == |patches[i].chunks| - 1
    {
      OtherChunks(patches, currentChunk, st, i, a);
    }
    assert forall i :: 0 <= i < |patches| ==> PatchIs(patches[i], st.patches[i]);
    var made := MakeLine(line);
    l := made;
    currentChunk.AddLine(made);
    assert Separate(patches);
    hide Separate;
    forall i | 0 <= i < |patches| ensures PatchIs(patches[i], next.patches[i]) {
      assert old(PatchIs(patches[i], st.patches[i]));
      forall a | 0 <= a < |patches[i].chunks| ensures ChunkIs(patches[i].chunks[a], next.patches[i].chunks[a]) {
        assert old(ChunkIs(patches[i].chunks[a], st.patches[i].chunks[a]));
      }
    }
  }

  lemma RepresentFacts(patches: seq<Patch>, currentChunk: PatchChunk?, st: Format.Parsed)
    requires Represent(patches, currentChunk, st)
    ensures Format.OwnerOk(st)
    ensures patches == [] <==> st.patches == []
    ensures currentChunk == null <==> st.owner == None
  {
  }

  lemma CurrentChunkListed(patches: seq<Patch>, currentChunk: PatchChunk, st: Format.Parsed)
    requires Represent(patches, currentChunk, st)
    ensures currentChunk in Chunks(patches)
  {
    hide PatchIs, Separate;
    var p := patches[st.owner.value];
    assert p in patches && currentChunk in p.chunks;
  }

  lemma RepresentNothing()
    ensures Represent([], null, Format.NOTHING)
    ensures Table([]) == map[] && LinesIn(map[]) == {} && LinesApart(map[])
  {
  }

  /** These objects stand for these values. */
  ghost predicate AreValues(patches: seq<Patch>, values: seq<Format.Patch>)
    reads patches, Chunks(patches), Lines(patches)
  {
    Represent(patches, null, Format.Parsed(values, None))
  }

  lemma RepresentValues(patches: seq<Patch>, currentChunk: PatchChunk?, st: Format.Parsed)
    requires Represent(patches, currentChunk, st)
    ensures AreValues(patches, st.patches)
  {
  }

  // ----- one line of input, and the lines of every chunk ---------------------------

  method TakeSrcFile(ghost patches: seq<Patch>, ghost currentChunk: PatchChunk?, ghost st: Format.Parsed, name: string)
    returns (patch: Patch)
    requires Represent(patches, currentChunk, st)
    ensures fresh(patch) && patch.chunks == []
    ensures Represent(patches + [patch], currentChunk, Format.ParseItem(st, Format.SrcFile(name)).value)
    ensures Table(patches + [patch]) == old(Table(patches))
  {
    hide Represent, Format.ParseItem;
    patch := NewPatch(patches, currentChunk, st, name);
    ghost var more := patches + [patch];
    assert forall p :: p in more <==> p in patches || p == patch;
    assert Chunks(more) == old(Chunks(patches));
  }

  method TakeDstFile(ghost patches: seq<Patch>, ghost currentChunk: PatchChunk?, ghost st: Format.Parsed,
                     currentPatch: Patch, name: string)
    requires Represent(patches, currentChunk, st)
    requires patches != [] && currentPatch == patches[|patches| - 1]
    modifies currentPatch`dst
    ensures Represent(patches, currentChunk, Format.ParseItem(st, Format.DstFile(name)).value)
    ensures Table(patches) == old(Table(patches))
  {
    hide Represent, Format.ParseItem;
    NamePatch(patches, currentChunk, st, currentPatch, name);
    assert forall p :: p in patches ==> p.chunks == old(p.chunks);
    assert Chunks(patches) == old(Chunks(patches));
  }

  method TakeChunkStart(ghost patches: seq<Patch>, ghost currentChunk: PatchChunk?, ghost st: Format.Parsed,
                        currentPatch: Patch, srcPos: nat, dstPos: nat)
    returns (chunk: PatchChunk)
    requires Represent(patches, currentChunk, st)
    requires patches != [] && currentPatch == patches[|patches| - 1]
    modifies currentPatch`chunks
    ensures fresh(chunk)
    ensures Represent(patches, chunk, Format.ParseItem(st, Format.ChunkStart(srcPos, dstPos)).value)
    ensures Table(patches) == old(Table(patches))[chunk := []] && chunk !in old(Table(patches))
  {
    hide Represent, Format.ParseItem;
    chunk := NewChunk(patches, currentChunk, st, currentPatch, srcPos, dstPos);
    assert currentPatch in patches;
    assert forall p :: p in patches && p != currentPatch ==> p.chunks == old(p.chunks);
    forall c ensures c in Chunks(patches) <==> c in old(Chunks(patches)) || c == chunk {
      if c in old(Chunks(patches)) {
        var p :| p in patches && c in old(p.chunks);
        assert c in p.chunks;
      }
      assert chunk in currentPatch.chunks;
    }
  }

  lemma ChunksAllocated(patches: seq<Patch>)
    ensures forall c :: c in Chunks(patches) ==> allocated(c)
  {
  }

  method TakeChunkLine(ghost patches: seq<Patch>, currentChunk: PatchChunk, ghost st: Format.Parsed, line: Format.Line)
    returns (ghost l: PatchChunkLine)
    requires Represent(patches, currentChunk, st) && line.kind != Format.Unset
    modifies currentChunk`lines
    ensures fresh(l) && currentChunk in old(Table(patches))
    ensures Represent(patches, currentChunk, Format.ParseItem(st, Format.ChunkLine(line)).value)
    ensures Table(patches) == old(Table(patches))[currentChunk := old(currentChunk.lines) + [l]]
    ensures old(Table(patches))[currentChunk] == old(currentChunk.lines)
    ensures l !in LinesIn(old(Table(patches)))
  {
    hide Represent, Format.ParseItem, Chunks;
    CurrentChunkListed(patches, currentChunk, st);
    ghost var before := Table(patches);
    ChunksAllocated(patches);
    assert forall c :: c in before ==> allocated(c) && before[c] == c.lines;
    assert forall c, x :: c in before && x in before[c] ==> allocated(x);
    l := NewLine(patches, currentChunk, st, line);
    assert Chunks(patches) == old(Chunks(patches));
  }

  /** The body of the loop: the six patterns are tried in order. */
  method ReadLine(patches0: seq<Patch>, currentPatch0: Patch?, currentChunk0: PatchChunk?, ghost st: Format.Parsed,
                  line: string)
    returns (patches: seq<Patch>, currentPatch: Patch?, currentChunk: PatchChunk?, error: Option<Format.ParseError>)
    requires Represent(patches0, currentChunk0, st) && Format.OwnerOk(st) && LinesApart(Table(patches0))
    requires currentPatch0 == if patches0 == [] then null else patches0[|patches0| - 1]
    modifies if currentPatch0 == null then {} else {currentPatch0}
    modifies if currentChunk0 == null then {} else {currentChunk0}
    ensures var next := Format.ParseItem(st, Format.Classify(line));
      && (next.Err? ==> error == Some(next.error))
      && (next.Ok? ==> error == None && Represent(patches, currentChunk, next.value))
    ensures currentPatch == if patches == [] then null else patches[|patches| - 1]
    ensures patches == patches0 || (fresh(currentPatch) && patches == patches0 + [currentPatch])
    ensures currentChunk == currentChunk0 || fresh(currentChunk)
    ensures error == None ==> LinesApart(Table(patches))
    ensures forall c :: c in Table(patches) ==> c in old(Table(patches0)) || fresh(c)
    ensures forall l :: l in LinesIn(Table(patches)) ==> l in LinesIn(old(Table(patches0))) || fresh(l)
  {
    hide LinesApart, LinesIn, Table, Represent, Format.ParseItem, Format.MatchLead, Format.MatchChunkStart;
    Format.ParseItemErrors(st, Format.Classify(line));
    RepresentFacts(patches0, currentChunk0, st);
    patches, currentPatch, currentChunk, error := patches0, currentPatch0, currentChunk0, None;
    var srcFile := Format.MatchLead("--- ", line);
    if srcFile.Some? {
      currentPatch := TakeSrcFile(patches, currentChunk, st, srcFile.value);
      patches := patches + [currentPatch];
      return;
    }
    var dstFile := Format.MatchLead("+++ ", line);
    if dstFile.Some? {
      if currentPatch == null {
        error := Some(Format.NoCurrentPatch);
        return;
      }
      TakeDstFile(patches, currentChunk, st, currentPatch, dstFile.value);
      return;
    }
    var chunkStart := Format.MatchChunkStart(line);
    if chunkStart.Some? {
      if currentPatch == null {
        error := Some(Format.NoCurrentPatch);
        return;
      }
      currentChunk := TakeChunkStart(patches, currentChunk, st, currentPatch, chunkStart.value.0, chunkStart.value.1);
      ApartAfterChunk(old(Table(patches)), currentChunk);
      return;
    }
    var src := Format.MatchLead("-", line);
    var dst := Format.MatchLead("+", line);
    var both := Format.MatchLead(" ", line);
    if src.None? && dst.None? && both.None? {
      error := Some(Format.UnknownLine);
      return;
    }
    if currentChunk == null {
      error := Some(Format.NoCurrentChunk);
      return;
    }
    ghost var l := TakeChunkLine(patches, currentChunk, st,
                                 if src.Some? then Format.Line(Format.Src, src.value)
                                 else if dst.Some? then Format.Line(Format.Dst, dst.value)
                                 else Format.Line(Format.Both, both.value));
    ApartAfterLine(old(Table(patches)), currentChunk, l);
  }

  /** `parse_patchset`: new objects for what the lines say, or the exception. */
  method ParsePatchset(lines: seq<string>) returns (r: Result<seq<Patch>, Format.ParseError>)
    ensures var parsed := Format.ParsePatchset(lines);
      && (parsed.Err? ==> r == Err(parsed.error))
      && (parsed.Ok? ==> r.Ok? && AreValues(r.value, parsed.value) && LinesApart(Table(r.value)))
    ensures r.Ok? ==>
      && (forall p :: p in r.value ==> fresh(p))
      && (forall c :: c in Table(r.value) ==> fresh(c))
      && (forall l :: l in LinesIn(Table(r.value)) ==> fresh(l))
  {
    hide LinesApart, LinesIn, Table, Represent, AreValues;
    hide Format.ParseItem, Format.ParseLines, Format.Classify, Format.OwnerOk;
    var patches: seq<Patch> := [];
    var currentPatch: Patch? := null;
    var currentChunk: PatchChunk? := null;
    ghost var st := Format.NOTHING;
    RepresentNothing();
    RepresentFacts(patches, currentChunk, st);
    Format.ParseEnd(st, lines);
    for i := 0 to |lines|
      invariant Represent(patches, currentChunk, st) && Format.OwnerOk(st)
      invariant currentPatch == if patches == [] then null else patches[|patches| - 1]
      invariant forall p :: p in patches ==> fresh(p)
      invariant currentPatch != null ==> fresh(currentPatch)
      invariant currentChunk != null ==> fresh(currentChunk)
      invariant LinesApart(Table(patches))
      invariant forall c :: c in Table(patches) ==> fresh(c)
      invariant forall l :: l in LinesIn(Table(patches)) ==> fresh(l)
      invariant Format.ParseLines(st, lines[i..]) == Format.ParseLines(Format.NOTHING, lines)
    {
      Format.ParseStep(st, lines, i);
      var error;
      patches, currentPatch, currentChunk, error := ReadLine(patches, currentPatch, currentChunk, st, lines[i]);
      if error.Some? {
        return Err(error.value);
      }
      st := Format.ParseItem(st, Format.Classify(lines[i])).value;
      RepresentFacts(patches, currentChunk, st);
    }
    Format.ParseEnd(st, lines);
    RepresentValues(patches, currentChunk, st);
    return Ok(patches);
  }

  lemma ValuesUnique(patches: seq<Patch>, a: seq<Format.Patch>, b: seq<Format.Patch>)
    requires AreValues(patches, a) && AreValues(patches, b)
    ensures a == b
  {
    forall i | 0 <= i < |patches| ensures a[i] == b[i] {
      assert PatchIs(patches[i], a[i]) && PatchIs(patches[i], b[i]);
      forall k | 0 <= k < |patches[i].chunks| ensures a[i].chunks[k] == b[i].chunks[k] {
        assert ChunkIs(patches[i].chunks[k], a[i].chunks[k]) && ChunkIs(patches[i].chunks[k], b[i].chunks[k]);
        assert a[i].chunks[k].lines == b[i].chunks[k].lines;
      }
      assert a[i].chunks == b[i].chunks;
    }
  }

  /** Writing a patch object and parsing what it wrote gives a new object with the same value, exactly
      when none of its lines looks like a file name. */
  method Reread(patch: Patch) returns (r: Result<seq<Patch>, Format.ParseError>)
    requires '\n' !in patch.src && '\n' !in patch.dst && Format.ChunksOk(patch.Value().chunks)
    ensures Format.AllPlain(patch.Value().chunks) <==> r.Ok? && AreValues(r.value, [patch.Value()])
  {
    hide AreValues, Format.AllPlain, Format.ChunksOk, Format.WritePatch, Format.ParsePatchset;
    ghost var value := patch.Value();
    Format.ReadBackOne(value);
    Format.OkIsTyped(value.chunks);
    ghost var parsed := Format.ParsePatchset(Format.WritePatch(value));
    var written, result := patch.Write();
    assert patch.Value() == value;
    assert written == Format.WritePatch(value);
    r := ParsePatchset(written);
    assert patch.Value() == value;
    if r.Ok? && AreValues(r.value, [value]) {
      ValuesUnique(r.value, parsed.value, [value]);
    }
  }
}
