/** The source-map concatenator: `Source` and `SourceMapBuilder`. */
module SourceMapBuilders {
  import opened Int32
  import opened Vlq
  import opened Mappings
  import opened SourceMaps
  import opened DynamicBuffers

  function Occurrences(b: seq<Byte>, c: Byte): nat {
    if b == [] then 0 else Occurrences(b[..|b| - 1], c) + if b[|b| - 1] == c then 1 else 0
  }

  function Newlines(b: seq<Byte>): nat {
    Occurrences(b, NEWLINE)
  }

  function Semicolons(b: seq<Byte>): nat {
    Occurrences(b, SEMICOLON)
  }

  lemma {:induction false} OccurrencesConcat(a: seq<Byte>, b: seq<Byte>, c: Byte)
    ensures Occurrences(a + b, c) == Occurrences(a, c) + Occurrences(b, c)
    decreases |b|
  {
    if b == [] {
      assert a + b == a;
    } else {
      assert (a + b)[..|a + b| - 1] == a + b[..|b| - 1];
      OccurrencesConcat(a, b[..|b| - 1], c);
    }
  }

  lemma OneByte(b: Byte, c: Byte)
    ensures Occurrences([b], c) == if b == c then 1 else 0
  {
    assert [b][..0] == [];
  }

  lemma OccurrencesSnoc(a: seq<Byte>, b: Byte, c: Byte)
    ensures Occurrences(a + [b], c) == Occurrences(a, c) + if b == c then 1 else 0
  {
    OccurrencesConcat(a, [b], c);
    OneByte(b, c);
  }

  method CountNewlines(b: seq<Byte>) returns (res: nat)
    ensures res == Newlines(b)
  {
    res := 0;
    for i := 0 to |b|
      invariant res == Newlines(b[..i])
    {
      assert b[..i + 1][..i] == b[..i];
      if b[i] == NEWLINE {
        res := res + 1;
      }
    }
    assert b[..|b|] == b;
  }

  /** A source file with its map. Its content ends with a newline unless it is empty. */
  class Source {
    const content: seq<Byte>
    const sources: seq<string>
    const mappings: seq<Byte>
    const sourceLines: nat

    ghost predicate Valid() {
      && sourceLines == Newlines(content)
      && (content != [] ==> content[|content| - 1] == NEWLINE)
    }

    constructor (content: seq<Byte>, sources: seq<string>, mappings: seq<Byte>)
      ensures Valid() && this.sources == sources && this.mappings == mappings
      ensures this.content ==
        if content == [] || content[|content| - 1] == NEWLINE then content else content + [NEWLINE]
    {
      var lines := CountNewlines(content);
      var text := content;
      if |content| > 0 && content[|content| - 1] != NEWLINE {
        lines := lines + 1;
        text := content + [NEWLINE];
        OccurrencesSnoc(content, NEWLINE, NEWLINE);
      }
      this.content, this.sources, this.mappings, this.sourceLines := text, sources, mappings, lines;
    }
  }

  // ---------- the loop of the transcoder, on any mappings ----------

  /** An entry of the index table, or what looking one up out of range gives. */
  datatype Index = Undefined | At(value: nat)

  function Lookup(remap: seq<nat>, i: int): Index {
    if 0 <= i < |remap| then At(remap[i]) else Undefined
  }

  /** The difference of two entries. With an undefined one it is not a number, which the
      encoder's shifts turn into 0. */
  function Delta(x: Index, y: Index): int {
    if x.At? && y.At? then x.value - y.value else 0
  }

  /** The loop variables that describe the input, and those that describe the output. */
  datatype Input = Input(
    valpos: nat, col: int, source: int, line: int, sourceCol: int,
    value: int, shift: nat,
    lines: nat)

  datatype Output = Output(col: int, source: Index, line: int, sourceCol: int)

  const FIRST := Input(0, 0, 0, 0, 0, 0, 0, 0)

  /** The bytes of the pending segment, relative to the last position written. */
  function SegmentBytes(i: Input, o: Output, remap: seq<nat>): seq<Byte> {
    if i.valpos == 0 then []
    else if i.valpos == 1 then EncodeVlq(i.col - o.col)
    else
      EncodeVlq(i.col - o.col) + EncodeVlq(Delta(Lookup(remap, i.source), o.source))
      + EncodeVlq(i.line - o.line) + EncodeVlq(i.sourceCol - o.sourceCol)
  }

  function AfterSegment(i: Input, o: Output, remap: seq<nat>): Output {
    if i.valpos == 0 then o
    else if i.valpos == 1 then o.(col := i.col)
    else Output(i.col, Lookup(remap, i.source), i.line, i.sourceCol)
  }

  /** One digit, with the 32-bit operators. */
  function AfterDigit(i: Input, v: Byte): Input {
    var sum := i.value + Shl(Low5(v), i.shift);
    if Bit5(v) then i.(value := sum, shift := i.shift + 5)
    else
      var x := if Odd(sum) then -Sar(sum, 1) else Sar(sum, 1);
      i.(valpos := i.valpos + 1, value := 0, shift := 0,
         col := if i.valpos == 0 then i.col + x else i.col,
         source := if i.valpos == 1 then i.source + x else i.source,
         line := if i.valpos == 2 then i.line + x else i.line,
         sourceCol := if i.valpos == 3 then i.sourceCol + x else i.sourceCol)
  }

  function AfterSeparator(i: Input, b: Byte): Input {
    if b == SEMICOLON then i.(valpos := 0, col := 0, lines := i.lines + 1) else i.(valpos := 0)
  }

  /** Every byte is a separator or in the alphabet; '=' is. */
  predicate Readable(bytes: seq<Byte>) {
    forall k :: 0 <= k < |bytes| ==> bytes[k] == SEMICOLON || bytes[k] == COMMA || CharToInteger(bytes[k]) != 255
  }

  /** While the input is well formed the loop variables agree with a reader of the input
      and with a reader of what was written, and the one follows the other. */
  ghost predicate Mirror(bytes: seq<Byte>, ip: nat, c: seq<Byte>, i: Input, o: Output,
                         from: seq<string>, to: seq<string>, base: seq<seq<Origin>>)
    requires ip <= |bytes|
  {
    var a, w := Run(START, bytes[..ip], |from|), Run(START, c, |to|);
    && a.status == Ok && Follows(a, w, from, to, base) && DigitsAt(a, i.value, i.shift) && |a.lines| == i.lines
    && InputAt(a, i.valpos, i.col, i.source, i.line, i.sourceCol)
    && o.source.At? && OutputAt(w, o.col, o.source.value, o.line, o.sourceCol)
  }

  class SourceMapBuilder {
    const outputBuffer: DynamicBuffer
    const mappings: DynamicBuffer
    var sources: seq<string>
    var lastSourceIndex: Index
    var lastSourceLine: int
    var lastSourceCol: int

    /** What holds whatever mappings were added. */
    ghost predicate Separate()
      reads this, outputBuffer, mappings
    {
      && outputBuffer != mappings && outputBuffer.buffer != mappings.buffer
      && outputBuffer.Valid() && mappings.Valid() && NoDuplicates(sources)
    }

    /** The reader after all mappings written so far. */
    ghost function Reader(): Scan
      requires mappings.Valid()
      reads this, mappings, mappings.buffer
    {
      Run(START, mappings.Contents(), |sources|)
    }

    /** The fields agree with what a reader of the mappings has seen. */
    ghost predicate Totals(o: Scan)
      reads this
    {
      && lastSourceIndex.At? && o.source == lastSourceIndex.value
      && o.line == lastSourceLine && o.sourceCol == lastSourceCol
    }

    /** The mappings are well formed, describe as many lines as the output has newlines,
        and end on an empty line. */
    ghost predicate Valid()
      reads this, outputBuffer, outputBuffer.buffer, mappings, mappings.buffer
    {
      && Separate() && |sources| <= 0x4000_0000
      && Aligned(Reader()) && Totals(Reader())
      && |Reader().lines| == Newlines(outputBuffer.Contents())
    }

    constructor ()
      ensures Valid() && sources == [] && outputBuffer.Contents() == [] && mappings.Contents() == []
      ensures fresh(outputBuffer) && fresh(outputBuffer.buffer) && fresh(mappings) && fresh(mappings.buffer)
    {
      outputBuffer := new DynamicBuffer();
      mappings := new DynamicBuffer();
      sources := [];
      lastSourceIndex, lastSourceLine, lastSourceCol := At(0), 0, 0;
    }

    lemma ValidParts()
      requires Valid()
      ensures Separate() && outputBuffer.Valid() && mappings.Valid() && Aligned(Reader()) && Totals(Reader())
      ensures |sources| <= 0x4000_0000 && Reader() == Run(START, mappings.Contents(), |sources|)
      ensures |Reader().lines| == Newlines(outputBuffer.Contents())
    {
    }

    lemma SeparateParts()
      requires Separate()
      ensures outputBuffer.Valid() && mappings.Valid()
    {
    }

    /** The position of a source in the list; a missing one is added at the end. */
    method FindSource(name: string) returns (pos: nat)
      requires NoDuplicates(sources)
      modifies `sources
      ensures sources == if name in old(sources) then old(sources) else old(sources) + [name]
      ensures pos < |sources| && sources[pos] == name && NoDuplicates(sources)
      ensures if pos < |old(sources)| then old(sources)[pos] == name else name !in old(sources)
    {
      pos := 0;
      while pos < |sources| && sources[pos] != name
        invariant pos <= |sources| && forall k :: 0 <= k < pos ==> sources[k] != name
      {
        pos := pos + 1;
      }
      if pos == |sources| {
        sources := sources + [name];
      }
    }

    /** Finds the sources of a new map in the list, adding those that are missing. */
    method RemapSources(names: seq<string>) returns (sourceRemap: seq<nat>)
      requires NoDuplicates(sources)
      modifies `sources
      ensures old(sources) <= sources && |sources| <= |old(sources)| + |names|
      ensures NoDuplicates(sources) && forall x :: x in sources <==> x in old(sources) || x in names
      ensures Remaps(sourceRemap, names, sources) && InOrder(sourceRemap, names, old(sources))
    {
      hide NoDuplicates, InOrder, Remaps;
      sourceRemap := [];
      NothingRemapped(sources);
      for i := 0 to |names|
        invariant old(sources) <= sources && |sources| <= |old(sources)| + i
        invariant NoDuplicates(sources) && forall x :: x in sources <==> x in old(sources) || x in names[..i]
        invariant |sourceRemap| == i
        invariant Remaps(sourceRemap, names[..i], sources) && InOrder(sourceRemap, names[..i], old(sources))
      {
        ghost var before := sources;
        var pos := FindSource(names[i]);
        assert names[..i + 1] == names[..i] + [names[i]];
        OneMoreRemapped(sourceRemap, names[..i], before, sources, names[i], pos);
        OneMoreInOrder(sourceRemap, names[..i], old(sources), before, names[i], pos);
        sourceRemap := sourceRemap + [pos];
      }
      assert names[..|names|] == names;
    }

    ghost function Last(col: int): Output
      reads this
    {
      Output(col, lastSourceIndex, lastSourceLine, lastSourceCol)
    }

    /** Writes the pending segment, relative to the last position written. */
    method CommitSegment(valpos: nat, inOutputCol: int, inSourceIndex: int, inSourceLine: int, inSourceCol: int,
                         lastOutputCol: int, sourceRemap: seq<nat>, ghost i: Input)
      returns (lastCol: int)
      requires mappings.Valid()
      requires i.valpos == valpos && i.col == inOutputCol
      requires i.source == inSourceIndex && i.line == inSourceLine && i.sourceCol == inSourceCol
      modifies `lastSourceIndex, `lastSourceLine, `lastSourceCol, mappings, mappings.buffer
      ensures mappings.Valid() && (mappings.buffer == old(mappings.buffer) || fresh(mappings.buffer))
      ensures mappings.Contents() == old(mappings.Contents()) + SegmentBytes(i, old(Last(lastOutputCol)), sourceRemap)
      ensures Last(lastCol) == AfterSegment(i, old(Last(lastOutputCol)), sourceRemap)
    {
      hide *;
      SegmentCases(i, Last(lastOutputCol), sourceRemap);
      LastIs(lastOutputCol);
      ghost var c, o := mappings.Contents(), Last(lastOutputCol);
      lastCol := lastOutputCol;
      if valpos == 0 {
        return;
      }
      mappings.AddVlq(inOutputCol - lastOutputCol);
      lastCol := inOutputCol;
      LastIs(lastCol);
      if valpos == 1 {
        return;
      }
      var outSourceIndex := Lookup(sourceRemap, inSourceIndex);
      mappings.AddVlq(Delta(outSourceIndex, lastSourceIndex));
      lastSourceIndex := outSourceIndex;
      mappings.AddVlq(inSourceLine - lastSourceLine);
      lastSourceLine := inSourceLine;
      mappings.AddVlq(inSourceCol - lastSourceCol);
      lastSourceCol := inSourceCol;
      LastIs(lastCol);
      ConcatFour(c, EncodeVlq(i.col - o.col), EncodeVlq(Delta(outSourceIndex, o.source)),
        EncodeVlq(i.line - o.line), EncodeVlq(i.sourceCol - o.sourceCol));
    }

    lemma LastIs(col: int)
      ensures Last(col) == Output(col, lastSourceIndex, lastSourceLine, lastSourceCol)
    {
    }

    lemma ReaderIs()
      requires mappings.Valid()
      ensures Reader() == Run(START, mappings.Contents(), |sources|)
      ensures Totals(Reader()) <==>
        lastSourceIndex.At? && OutputAt(Reader(), Reader().col, lastSourceIndex.value, lastSourceLine, lastSourceCol)
    {
    }

    /** Nothing is wrong so far: what was written is well formed, and says `base`. */
    ghost predicate Ready(base: seq<seq<Origin>>)
      reads this, mappings, mappings.buffer
      requires mappings.Valid()
    {
      && |sources| <= 0x4000_0000 && Aligned(Reader()) && Totals(Reader())
      && NamedLines(Reader().lines, sources) == base
    }

    lemma ReadyParts(base: seq<seq<Origin>>)
      requires mappings.Valid()
      ensures Reader() == Run(START, mappings.Contents(), |sources|)
      ensures Ready(base) <==> |sources| <= 0x4000_0000 && Aligned(Reader()) && Totals(Reader())
                               && NamedLines(Reader().lines, sources) == base
    {
    }

    /** Re-encodes the mappings of a source against the running totals, one byte at a
        time, and pads the mappings to the source's number of lines. Only a byte outside
        the alphabet stops it, with an exception. */
    method Transcode(source: Source, sourceRemap: seq<nat>, ghost base: seq<seq<Origin>>) returns (ok: bool)
      requires mappings.Valid() && Remaps(sourceRemap, source.sources, sources)
      modifies `lastSourceIndex, `lastSourceLine, `lastSourceCol, mappings, mappings.buffer
      ensures mappings.Valid() && (mappings.buffer == old(mappings.buffer) || fresh(mappings.buffer))
      ensures ok <==> Readable(source.mappings)
      ensures ok ==> Semicolons(mappings.Contents())
                     == old(Semicolons(mappings.Contents())) + Max(Semicolons(source.mappings), source.sourceLines)
      ensures old(Ready(base)) && Decode(source.mappings, |source.sources|).status == Ok ==>
        && ok && Totals(Reader())
        && Transcoded(Decode(source.mappings, |source.sources|), Reader(), source.sourceLines,
                      source.sources, sources, base)
    {
      hide *;
      ghost var from, to := source.sources, sources;
      ghost var good := Ready(base) && Decode(source.mappings, |from|).status == Ok;
      var inputMappings := source.mappings;
      var outputLine, ip, lastOutputCol := 0, 0, 0;
      var inOutputCol, inSourceIndex, inSourceLine, inSourceCol := 0, 0, 0, 0;
      var shift, value, valpos := 0, 0, 0;
      ghost var i := FIRST;
      ReadyParts(base);
      ReaderIs();
      LastIs(0);
      FirstIs(inputMappings, from);
      if good {
        MirrorStarts(inputMappings, mappings.Contents(), Last(0), from, to, base);
      }
      while ip < |inputMappings|
        invariant ip <= |inputMappings| && Readable(inputMappings[..ip])
        invariant mappings.Valid() && (mappings.buffer == old(mappings.buffer) || fresh(mappings.buffer))
        invariant i == Input(valpos, inOutputCol, inSourceIndex, inSourceLine, inSourceCol, value, shift, outputLine)
        invariant outputLine == Semicolons(inputMappings[..ip])
        invariant Semicolons(mappings.Contents()) == old(Semicolons(mappings.Contents())) + outputLine
        invariant good ==> Mirror(inputMappings, ip, mappings.Contents(), i, Last(lastOutputCol), from, to, base)
      {
        var b := inputMappings[ip];
        NextByte(inputMappings, ip);
        ghost var c, o := mappings.Contents(), Last(lastOutputCol);
        if b == SEMICOLON || b == COMMA {
          if good {
            MirrorSeparator(inputMappings, ip, c, i, o, sourceRemap, from, to, base);
          }
          lastOutputCol := CommitSegment(valpos, inOutputCol, inSourceIndex, inSourceLine, inSourceCol,
            lastOutputCol, sourceRemap, i);
          valpos := 0;
          mappings.AddByte(b);
          SegmentSemicolons(c, i, o, sourceRemap, b);
          SeparatorIs(i, b);
          LastIs(lastOutputCol);
          if b == SEMICOLON {
            inOutputCol, lastOutputCol, outputLine := 0, 0, outputLine + 1;
          }
          LastIs(lastOutputCol);
          i := AfterSeparator(i, b);
        } else {
          var v := CharToInteger(b);
          if v == 255 {
            NotReadable(inputMappings, ip);
            if good {
              WellFormedIsReadable(inputMappings, |from|);
            }
            return false;
          }
          if good {
            MirrorDigit(inputMappings, ip, c, i, o, from, to, base);
          }
          DigitIs(i, v);
          i := AfterDigit(i, v);
          value := value + Shl(Low5(v), shift);
          if Bit5(v) {
            shift := shift + 5;
          } else {
            var shouldNegate := Odd(value);
            value := Sar(value, 1);
            if shouldNegate { value := -value; }
            if valpos == 0 {
              inOutputCol := inOutputCol + value;
            } else if valpos == 1 {
              inSourceIndex := inSourceIndex + value;
            } else if valpos == 2 {
              inSourceLine := inSourceLine + value;
            } else if valpos == 3 {
              inSourceCol := inSourceCol + value;
            }
            valpos := valpos + 1;
            value, shift := 0, 0;
          }
        }
        ip := ip + 1;
      }
      assert inputMappings[..ip] == inputMappings;
      ghost var c, o := mappings.Contents(), Last(lastOutputCol);
      lastOutputCol := CommitSegment(valpos, inOutputCol, inSourceIndex, inSourceLine, inSourceCol,
        lastOutputCol, sourceRemap, i);
      ghost var padded, bytes := 0, SegmentBytes(i, o, sourceRemap);
      SemisPush(0);
      while outputLine < source.sourceLines
        invariant mappings.Valid() && (mappings.buffer == old(mappings.buffer) || fresh(mappings.buffer))
        invariant mappings.Contents() == c + bytes + Semis(padded) && outputLine == i.lines + padded
        invariant padded == 0 || outputLine <= source.sourceLines
        invariant Last(lastOutputCol) == AfterSegment(i, o, sourceRemap)
      {
        SemisPush(padded);
        mappings.AddByte(SEMICOLON);
        outputLine, padded := outputLine + 1, padded + 1;
        LastIs(lastOutputCol);
      }
      PaddedSemicolons(c, i, o, sourceRemap, padded);
      MaxIs(i.lines, source.sourceLines);
      ReaderIs();
      LastIs(lastOutputCol);
      if good {
        MirrorEnds(inputMappings, c, i, o, sourceRemap, source.sourceLines, padded, from, to, base);
      }
      ok := true;
    }

    /** Appends a source: its text, whatever its mappings are, and its mappings, unless a
        byte outside the alphabet is met, which is an exception. The mappings gain as many
        line ends as the source has lines, or as its mappings have if that is more. If
        everything so far was well formed and the source's mappings are, what the
        builder's mappings say is what they said before, followed by what the source's
        mappings say about each of its lines, with the same source names; and they keep
        describing one line for each newline of the output exactly when no segment lies
        beyond the source's last line. */
    method AddSource(source: Source) returns (ok: bool)
      requires Separate() && source.Valid()
      modifies this, outputBuffer, outputBuffer.buffer, mappings, mappings.buffer
      ensures Separate() && old(sources) <= sources && |sources| <= |old(sources)| + |source.sources|
      ensures forall x :: x in sources <==> x in old(sources) || x in source.sources
      ensures outputBuffer.buffer == old(outputBuffer.buffer) || fresh(outputBuffer.buffer)
      ensures mappings.buffer == old(mappings.buffer) || fresh(mappings.buffer)
      ensures outputBuffer.Contents() == old(outputBuffer.Contents()) + source.content
      ensures ok <==> Readable(source.mappings)
      ensures ok ==> Semicolons(mappings.Contents())
                     == old(Semicolons(mappings.Contents())) + Max(Semicolons(source.mappings), source.sourceLines)
      ensures old(Valid()) && |sources| <= 0x4000_0000 && Decode(source.mappings, |source.sources|).status == Ok ==>
        && ok && (Valid() <==> LinesFit(Decode(source.mappings, |source.sources|), source.sourceLines))
        && (Valid() ==>
              NamedLines(Reader().lines, sources)
              == old(NamedLines(Reader().lines, sources))
                 + Fitted(NamedLines(AllLines(Decode(source.mappings, |source.sources|)), source.sources),
                          source.sourceLines))
    {
      hide Run, Commit, Step, NamedLines, Fitted, LinesFit, Occurrences, Newlines, Transcoded, Valid, Ready;
      ghost var base, before, text := NamedLines(Reader().lines, sources), Reader(), outputBuffer.Contents();
      ghost var bytes, was, valid := mappings.Contents(), sources, Valid();
      if valid {
        ValidParts();
      }
      outputBuffer.AddBuffer(source.content);
      var sourceRemap := RemapSources(source.sources);
      if valid {
        ReaderGrows(bytes, was, sources);
        NamedLinesLength(before.lines, was);
      }
      ReadyParts(base);
      ok := Transcode(source, sourceRemap, base);
      OccurrencesConcat(text, source.content, NEWLINE);
      NewlinesIs(text);
      NewlinesIs(source.content);
      NewlinesIs(text + source.content);
      if valid && |sources| <= 0x4000_0000 && Decode(source.mappings, |source.sources|).status == Ok {
        ghost var a := Decode(source.mappings, |source.sources|);
        TranscodedParts(a, Reader(), source.sourceLines, source.sources, sources, base);
        ValidIs();
      }
    }

    lemma ValidIs()
      requires Separate()
      ensures Valid() <==> |sources| <= 0x4000_0000 && Aligned(Reader()) && Totals(Reader())
                           && |Reader().lines| == Newlines(outputBuffer.Contents())
    {
    }

    /** Appends one line that no source is behind. */
    method AddLine(text: seq<Byte>)
      requires Separate()
      modifies this, outputBuffer, outputBuffer.buffer, mappings, mappings.buffer
      ensures Separate() && sources == old(sources)
      ensures outputBuffer.buffer == old(outputBuffer.buffer) || fresh(outputBuffer.buffer)
      ensures mappings.buffer == old(mappings.buffer) || fresh(mappings.buffer)
      ensures outputBuffer.Contents() == old(outputBuffer.Contents()) + text + [NEWLINE]
      ensures mappings.Contents() == old(mappings.Contents()) + [SEMICOLON]
      ensures old(Valid()) ==> Reader().lines == old(Reader().lines) + [[]] && (Valid() <==> Newlines(text) == 0)
    {
      hide Commit, Step, Run, Occurrences;
      ghost var o, c, before := Reader(), mappings.Contents(), outputBuffer.Contents();
      ghost var valid := Valid();
      outputBuffer.AddBuffer(text);
      outputBuffer.AddByte(NEWLINE);
      mappings.AddByte(SEMICOLON);
      RunSnoc(START, c, SEMICOLON, |sources|);
      if valid {
        BlankLine(o, |sources|);
      }
      OccurrencesSnoc(before + text, NEWLINE, NEWLINE);
      OccurrencesConcat(before, text, NEWLINE);
    }
  }

  /** Names that were missing are added in the order of the list. */
  ghost predicate InOrder(remap: seq<nat>, names: seq<string>, was: seq<string>)
    requires |remap| == |names|
  {
    forall i, j :: 0 <= i < j < |names| && names[i] !in was && names[j] !in was && names[j] !in names[..i + 1]
      ==> remap[i] < remap[j]
  }

  lemma NothingRemapped(was: seq<string>)
    ensures Remaps([], [], was) && InOrder([], [], was)
  {
  }

  lemma OneMoreRemapped(remap: seq<nat>, names: seq<string>, was: seq<string>, now: seq<string>, name: string, pos: nat)
    requires Remaps(remap, names, was) && was <= now && pos < |now| && now[pos] == name
    ensures Remaps(remap + [pos], names + [name], now) && |remap| == |names|
  {
  }

  lemma OneMoreInOrder(remap: seq<nat>, names: seq<string>, was: seq<string>, sources: seq<string>, name: string,
                       pos: nat)
    requires Remaps(remap, names, sources) && InOrder(remap, names, was) && NoDuplicates(sources)
    requires forall x :: x in sources <==> x in was || x in names
    requires pos <= |sources| && (if pos < |sources| then sources[pos] == name else name !in sources)
    ensures InOrder(remap + [pos], names + [name], was)
  {
    var names', remap' := names + [name], remap + [pos];
    forall i: nat, j: nat | i < j < |names'| && names'[i] !in was && names'[j] !in was && names'[j] !in names'[..i + 1]
      ensures remap'[i] < remap'[j]
    {
      assert names'[..i + 1] == names[..i + 1];
      if j == |names| && pos < |sources| {
        assert name in sources;
        assert forall k :: 0 <= k <= i ==> names[..i + 1][k] == names[k];
        var k :| 0 <= k < |names| && names[k] == name;
        assert remap[k] == pos;
      }
    }
  }

  predicate NoDuplicates(l: seq<string>) {
    forall i, j :: 0 <= i < j < |l| ==> l[i] != l[j]
  }

  // ---------- any mappings ----------

  lemma NewlinesIs(b: seq<Byte>)
    ensures Newlines(b) == Occurrences(b, NEWLINE) && Semicolons(b) == Occurrences(b, SEMICOLON)
  {
  }

  lemma MaxIs(a: nat, b: nat)
    ensures Max(a, b) == if a > b then a else b
  {
  }

  lemma FirstIs(bytes: seq<Byte>, from: seq<string>)
    ensures FIRST == Input(0, 0, 0, 0, 0, 0, 0, 0) && Readable(bytes[..0]) && Semicolons(bytes[..0]) == 0
  {
  }

  lemma NextByte(bytes: seq<Byte>, ip: nat)
    requires ip < |bytes|
    ensures Semicolons(bytes[..ip + 1]) == Semicolons(bytes[..ip]) + if bytes[ip] == SEMICOLON then 1 else 0
    ensures Readable(bytes[..ip + 1]) <==>
      Readable(bytes[..ip]) && (bytes[ip] == SEMICOLON || bytes[ip] == COMMA || CharToInteger(bytes[ip]) != 255)
  {
    assert bytes[..ip + 1] == bytes[..ip] + [bytes[ip]];
    OccurrencesSnoc(bytes[..ip], bytes[ip], SEMICOLON);
  }

  lemma NotReadable(bytes: seq<Byte>, ip: nat)
    requires ip < |bytes| && bytes[ip] != SEMICOLON && bytes[ip] != COMMA && CharToInteger(bytes[ip]) == 255
    ensures !Readable(bytes)
  {
  }

  lemma SegmentCases(i: Input, o: Output, remap: seq<nat>)
    ensures i.valpos == 0 ==> SegmentBytes(i, o, remap) == [] && AfterSegment(i, o, remap) == o
    ensures i.valpos == 1 ==> SegmentBytes(i, o, remap) == EncodeVlq(i.col - o.col)
    ensures i.valpos == 1 ==> AfterSegment(i, o, remap) == o.(col := i.col)
    ensures i.valpos > 1 ==>
      SegmentBytes(i, o, remap) == EncodeVlq(i.col - o.col) + EncodeVlq(Delta(Lookup(remap, i.source), o.source))
                                   + EncodeVlq(i.line - o.line) + EncodeVlq(i.sourceCol - o.sourceCol)
    ensures i.valpos > 1 ==> AfterSegment(i, o, remap) == Output(i.col, Lookup(remap, i.source), i.line, i.sourceCol)
  {
  }

  lemma SeparatorIs(i: Input, b: Byte)
    ensures AfterSeparator(i, b) ==
      if b == SEMICOLON then i.(valpos := 0, col := 0, lines := i.lines + 1) else i.(valpos := 0)
  {
  }

  lemma DigitIs(i: Input, v: Byte)
    ensures var sum := i.value + Shl(Low5(v), i.shift);
      var x := if Odd(sum) then -Sar(sum, 1) else Sar(sum, 1);
      AfterDigit(i, v) ==
        if Bit5(v) then i.(value := sum, shift := i.shift + 5)
        else i.(valpos := i.valpos + 1, value := 0, shift := 0,
                col := if i.valpos == 0 then i.col + x else i.col,
                source := if i.valpos == 1 then i.source + x else i.source,
                line := if i.valpos == 2 then i.line + x else i.line,
                sourceCol := if i.valpos == 3 then i.sourceCol + x else i.sourceCol)
  {
  }

  lemma {:induction false} RawHasNoSemicolon(raw: int)
    ensures Semicolons(EncodeRaw(raw)) == 0
    decreases if ToInt32(raw) > 0 then ToInt32(raw) else 0
  {
    assert Pow2(5) == 32;
    var next := Sar(raw, 5);
    hide IntegerToChar, Occurrences;
    if next > 0 {
      RawHasNoSemicolon(next);
      AlphabetRoundTrip(Low5(raw) + 32);
      OccurrencesConcat([IntegerToChar(Low5(raw) + 32)], EncodeRaw(next), SEMICOLON);
      OneByte(IntegerToChar(Low5(raw) + 32), SEMICOLON);
    } else {
      AlphabetRoundTrip(Low5(raw));
      OneByte(IntegerToChar(Low5(raw)), SEMICOLON);
    }
  }

  lemma SegmentHasNoSemicolon(i: Input, o: Output, remap: seq<nat>)
    ensures Semicolons(SegmentBytes(i, o, remap)) == 0
  {
    hide EncodeRaw, Occurrences, RawOf, Delta, Lookup;
    var d1, d2 := i.col - o.col, Delta(Lookup(remap, i.source), o.source);
    var d3, d4 := i.line - o.line, i.sourceCol - o.sourceCol;
    RawHasNoSemicolon(RawOf(d1));
    RawHasNoSemicolon(RawOf(d2));
    RawHasNoSemicolon(RawOf(d3));
    RawHasNoSemicolon(RawOf(d4));
    NothingOccurs(SEMICOLON);
    OccurrencesConcat(EncodeVlq(d1), EncodeVlq(d2), SEMICOLON);
    OccurrencesConcat(EncodeVlq(d1) + EncodeVlq(d2), EncodeVlq(d3), SEMICOLON);
    OccurrencesConcat(EncodeVlq(d1) + EncodeVlq(d2) + EncodeVlq(d3), EncodeVlq(d4), SEMICOLON);
  }

  lemma NothingOccurs(c: Byte)
    ensures Occurrences([], c) == 0
  {
  }

  lemma SegmentSemicolons(c: seq<Byte>, i: Input, o: Output, remap: seq<nat>, b: Byte)
    ensures Semicolons(c + SegmentBytes(i, o, remap) + [b]) == Semicolons(c) + if b == SEMICOLON then 1 else 0
  {
    hide SegmentBytes, Occurrences;
    SegmentHasNoSemicolon(i, o, remap);
    OccurrencesConcat(c, SegmentBytes(i, o, remap), SEMICOLON);
    OccurrencesSnoc(c + SegmentBytes(i, o, remap), b, SEMICOLON);
  }

  lemma {:induction false} SemisSemicolons(k: nat)
    ensures Semicolons(Semis(k)) == k
  {
    if k > 0 {
      SemisSemicolons(k - 1);
      SemisPush(k - 1);
      OccurrencesSnoc(Semis(k - 1), SEMICOLON, SEMICOLON);
    }
  }

  lemma PaddedSemicolons(c: seq<Byte>, i: Input, o: Output, remap: seq<nat>, padded: nat)
    ensures Semicolons(c + SegmentBytes(i, o, remap) + Semis(padded)) == Semicolons(c) + padded
  {
    hide SegmentBytes, Occurrences, Semis;
    SegmentHasNoSemicolon(i, o, remap);
    SemisSemicolons(padded);
    OccurrencesConcat(c, SegmentBytes(i, o, remap), SEMICOLON);
    OccurrencesConcat(c + SegmentBytes(i, o, remap), Semis(padded), SEMICOLON);
  }

  // ---------- well-formed mappings ----------

  lemma WellFormedIsReadable(bytes: seq<Byte>, n: nat)
    requires Decode(bytes, n).status == Ok
    ensures Readable(bytes)
  {
    forall k: nat | k < |bytes| && bytes[k] != SEMICOLON && bytes[k] != COMMA
      ensures CharToInteger(bytes[k]) != 255
    {
      PrefixStatus(bytes, k, n);
      InputStep(bytes, k, n);
    }
  }

  lemma MirrorStarts(bytes: seq<Byte>, c: seq<Byte>, o: Output, from: seq<string>, to: seq<string>,
      base: seq<seq<Origin>>)
    requires Aligned(Run(START, c, |to|)) && NamedLines(Run(START, c, |to|).lines, to) == base
    requires o.source.At? && OutputAt(Run(START, c, |to|), Run(START, c, |to|).col, o.source.value, o.line, o.sourceCol)
    requires o.col == 0
    ensures Mirror(bytes, 0, c, FIRST, o, from, to, base)
  {
    ReadStart(Run(START, c, |to|), from, to, base, bytes, |from|);
  }

  /** For the loop's segment and the segment of the readers. */
  lemma SameSegment(a: Scan, w: Scan, i: Input, o: Output, remap: seq<nat>)
    requires InputAt(a, i.valpos, i.col, i.source, i.line, i.sourceCol)
    requires o.source.At? && OutputAt(w, o.col, o.source.value, o.line, o.sourceCol)
    requires a.nfields <= 1 || 0 <= a.source < |remap|
    ensures SegmentBytes(i, o, remap) == CommitBytes(a, w, remap)
    ensures var p, v := AfterSegment(i, o, remap), Written(a, w, remap);
      p.source.At? && OutputAt(v, p.col, p.source.value, p.line, p.sourceCol)
  {
    hide EncodeVlq;
  }

  lemma MirrorSeparator(bytes: seq<Byte>, ip: nat, c: seq<Byte>, i: Input, o: Output, remap: seq<nat>,
                        from: seq<string>, to: seq<string>, base: seq<seq<Origin>>)
    requires ip < |bytes| && Mirror(bytes, ip, c, i, o, from, to, base)
    requires bytes[ip] == SEMICOLON || bytes[ip] == COMMA
    requires Decode(bytes, |from|).status == Ok && Remaps(remap, from, to) && |to| <= 0x4000_0000
    ensures var p := AfterSegment(i, o, remap);
      Mirror(bytes, ip + 1, c + SegmentBytes(i, o, remap) + [bytes[ip]], AfterSeparator(i, bytes[ip]),
             if bytes[ip] == SEMICOLON then p.(col := 0) else p, from, to, base)
  {
    hide Run, Step, Follows, Remaps, Decode, SegmentBytes, AfterSegment, CommitBytes, Written;
    hide OutputAt, InputAt, DigitsAt;
    var a, w, b := Run(START, bytes[..ip], |from|), Run(START, c, |to|), bytes[ip];
    InputStep(bytes, ip, |from|);
    SeparatorFollows(a, w, b, remap, from, to, base);
    SeparatorEffects(a, w, b, remap, from, to, base);
    InputParts(a, i.valpos, i.col, i.source, i.line, i.sourceCol);
    SameSegment(a, w, i, o, remap);
    var p, v := AfterSegment(i, o, remap), Written(a, w, remap);
    OutputParts(v, p.col, p.source.value, p.line, p.sourceCol);
    ReadOn(c, CommitBytes(a, w, remap), [b], |to|);
    DigitsEmpty(a, i.value, i.shift);
  }

  lemma MirrorDigit(bytes: seq<Byte>, ip: nat, c: seq<Byte>, i: Input, o: Output,
                    from: seq<string>, to: seq<string>, base: seq<seq<Origin>>)
    requires ip < |bytes| && Mirror(bytes, ip, c, i, o, from, to, base)
    requires bytes[ip] != SEMICOLON && bytes[ip] != COMMA && CharToInteger(bytes[ip]) != 255
    requires Decode(bytes, |from|).status == Ok
    ensures Mirror(bytes, ip + 1, c, AfterDigit(i, CharToInteger(bytes[ip])), o, from, to, base)
  {
    hide Run, Step, Follows, Decode, OutputAt, InputAt, DigitsAt, Shl, Low5, Bit5, Odd, Sar, CharToInteger, AddField;
    var a, w, b := Run(START, bytes[..ip], |from|), Run(START, c, |to|), bytes[ip];
    var v := CharToInteger(b);
    InputStep(bytes, ip, |from|);
    ReadDigit(a, b, |from|, i.value, i.shift);
    FollowsSame(a, Step(a, b, |from|), w, from, to, base);
    InputSame(a, a.digits + [v % 32], i.valpos, i.col, i.source, i.line, i.sourceCol);
    var sum := i.value + Shl(Low5(v), i.shift);
    AddFieldAt(a, if Odd(sum) then -Sar(sum, 1) else Sar(sum, 1), i.valpos, i.col, i.source, i.line, i.sourceCol);
  }

  lemma MirrorEnds(bytes: seq<Byte>, c: seq<Byte>, i: Input, o: Output, remap: seq<nat>, k: nat, padded: nat,
                   from: seq<string>, to: seq<string>, base: seq<seq<Origin>>)
    requires Mirror(bytes, |bytes|, c, i, o, from, to, base)
    requires Decode(bytes, |from|).status == Ok && Remaps(remap, from, to) && |to| <= 0x4000_0000
    requires padded == if i.lines < k then k - i.lines else 0
    ensures var w := Run(START, c + SegmentBytes(i, o, remap) + Semis(padded), |to|);
      var p := AfterSegment(i, o, remap);
      && Transcoded(Decode(bytes, |from|), w, k, from, to, base)
      && p.source.At? && OutputAt(w, w.col, p.source.value, p.line, p.sourceCol)
  {
    hide Run, Follows, Remaps, Decode, SegmentBytes, AfterSegment, CommitBytes, Written, Commit;
    hide InputAt, DigitsAt, Transcoded;
    var a, w := Run(START, bytes[..|bytes|], |from|), Run(START, c, |to|);
    ReadEnd(bytes, |bytes|, |from|);
    TranscodeDone(a, w, c, k, padded, remap, from, to, base);
    SameSegment(a, w, i, o, remap);
  }

  // ---------- a source index out of range ----------

  /** A segment whose source index is out of range is written as if it came from the source
      of the segment before it, and so is the next one whatever its index: readers accept
      both, and attribute them to that source. */
  lemma OutOfRangeRepeats(i: Input, j: Input, w: Scan, o: Output, remap: seq<nat>, n: nat)
    requires AtBoundary(w) && OutputAt(w, o.col, w.source, o.line, o.sourceCol) && o.source == At(w.source)
    requires i.valpos == 4 && !(0 <= i.source < |remap|) && j.valpos == 4
    requires Small(i.col - o.col) && Small(i.line - o.line) && Small(i.sourceCol - o.sourceCol)
    requires Small(j.col - i.col) && Small(j.line - i.line) && Small(j.sourceCol - i.sourceCol)
    ensures var o' := AfterSegment(i, o, remap);
      var w' := Run(w, SegmentBytes(i, o, remap), n);
      && w'.status == Ok && w'.nfields == 4 && w'.source == w.source && o'.source.Undefined?
      && w'.col == i.col && w'.line == i.line && w'.sourceCol == i.sourceCol
      && var w'' := Run(w'.(nfields := 0), SegmentBytes(j, o', remap), n);
         w''.status == Ok && w''.source == w.source && w''.line == j.line && w''.sourceCol == j.sourceCol
  {
    hide Run, EncodeVlq, AddField;
    RunFour(w, i.col - o.col, 0, i.line - o.line, i.sourceCol - o.sourceCol, n);
    AddFourSets(w, i.col - o.col, 0, i.line - o.line, i.sourceCol - o.sourceCol);
    var w' := Run(w, SegmentBytes(i, o, remap), n).(nfields := 0);
    RunFour(w', j.col - i.col, 0, j.line - i.line, j.sourceCol - i.sourceCol, n);
    AddFourSets(w', j.col - i.col, 0, j.line - i.line, j.sourceCol - i.sourceCol);
  }

  lemma NamedLinesLength(lines: seq<seq<Segment>>, sources: seq<string>)
    ensures |NamedLines(lines, sources)| == |lines|
  {
  }

  lemma BlankLine(o: Scan, n: nat)
    requires Aligned(o)
    ensures Step(o, SEMICOLON, n) == o.(lines := o.lines + [[]])
  {
  }

  /** The loop variables of the transcoder agree with a reader of the input. */
  predicate InputAt(a: Scan, valpos: nat, col: int, source: int, line: int, sourceCol: int) {
    a.nfields == valpos && a.col == col && a.source == source && a.line == line && a.sourceCol == sourceCol
  }

  predicate OutputAt(o: Scan, col: int, source: int, line: int, sourceCol: int) {
    o.col == col && o.source == source && o.line == line && o.sourceCol == sourceCol
  }

  lemma DigitsEmpty(a: Scan, value: int, shift: nat)
    requires DigitsAt(a, value, shift) && a.digits == []
    ensures value == 0 && shift == 0
  {
  }

  lemma InputParts(a: Scan, valpos: nat, col: int, source: int, line: int, sourceCol: int)
    requires InputAt(a, valpos, col, source, line, sourceCol)
    ensures a.nfields == valpos && a.col == col && a.source == source && a.line == line && a.sourceCol == sourceCol
  {
  }

  lemma InputSame(a: Scan, ds: seq<nat>, valpos: nat, col: int, source: int, line: int, sourceCol: int)
    requires InputAt(a, valpos, col, source, line, sourceCol)
    ensures InputAt(a.(digits := ds), valpos, col, source, line, sourceCol)
  {
  }

  lemma OutputParts(o: Scan, col: int, source: int, line: int, sourceCol: int)
    requires OutputAt(o, col, source, line, sourceCol)
    ensures o.col == col && o.source == source && o.line == line && o.sourceCol == sourceCol
  {
  }

  lemma ReadStart(o: Scan, from: seq<string>, to: seq<string>, base: seq<seq<Origin>>, bytes: seq<Byte>, n: nat)
    requires Aligned(o) && NamedLines(o.lines, to) == base
    ensures Follows(START, o, from, to, base) && o.col == 0 && Run(START, bytes[..0], n) == START
    ensures DigitsAt(START, 0, 0) && InputAt(START, 0, 0, 0, 0, 0) && |START.lines| == 0 && START.status == Ok
  {
    assert NamedSegs([], from) == [] && NamedSegs(o.segs, to) == [];
    assert NamedLines([], from) == [] && base + [] == base;
    assert bytes[..0] == [];
  }

  /** One byte of an input that is not malformed. */
  lemma InputStep(bytes: seq<Byte>, ip: nat, n: nat)
    requires ip < |bytes| && Decode(bytes, n).status != Malformed && Run(START, bytes[..ip], n).status == Ok
    ensures var a := Run(START, bytes[..ip], n);
      var a' := Run(START, bytes[..ip + 1], n);
      && a' == Step(a, bytes[ip], n) && a'.status != Malformed
      && (bytes[ip] == SEMICOLON || bytes[ip] == COMMA ==> a'.status == Ok)
      && (a'.status == InvalidByte ==> Decode(bytes, n).status == InvalidByte)
      && (bytes[ip] != SEMICOLON && bytes[ip] != COMMA ==>
        (a'.status == InvalidByte <==> CharToInteger(bytes[ip]) == 255))
  {
    assert bytes[..ip + 1] == bytes[..ip] + [bytes[ip]];
    RunSnoc(START, bytes[..ip], bytes[ip], n);
    PrefixStatus(bytes, ip + 1, n);
  }

  lemma ReadEnd(bytes: seq<Byte>, ip: nat, n: nat)
    requires ip == |bytes| && Run(START, bytes[..ip], n).status == Ok && Decode(bytes, n).status != Malformed
    ensures Decode(bytes, n) == Commit(Run(START, bytes[..ip], n), n) && Decode(bytes, n).status == Ok
  {
    assert bytes[..ip] == bytes;
  }

  lemma SemisPush(k: nat)
    ensures Semis(0) == [] && Semis(k + 1) == Semis(k) + [SEMICOLON]
  {
  }

  lemma ReadOn(c: seq<Byte>, x: seq<Byte>, y: seq<Byte>, n: nat)
    ensures Run(START, c + x + y, n) == Run(Run(START, c, n), x + y, n)
  {
    RunConcat(START, c, x + y, n);
    assert c + x + y == c + (x + y);
  }

  /** The totals of both readers after a separator. */
  lemma SeparatorEffects(a: Scan, o: Scan, sep: Byte, remap: seq<nat>, from: seq<string>, to: seq<string>,
      base: seq<seq<Origin>>)
    requires sep == SEMICOLON || sep == COMMA
    requires a.status == Ok && Step(a, sep, |from|).status == Ok
    requires Follows(a, o, from, to, base) && Remaps(remap, from, to) && |to| <= 0x4000_0000
    ensures a.nfields <= 1 || 0 <= a.source < |remap|
    ensures var a', w := Step(a, sep, |from|), Written(a, o, remap);
      var o' := Run(o, CommitBytes(a, o, remap) + [sep], |to|);
      && DigitsAt(a', 0, 0) && a.digits == []
      && InputAt(a', 0, if sep == SEMICOLON then 0 else a.col, a.source, a.line, a.sourceCol)
      && |a'.lines| == |a.lines| + (if sep == SEMICOLON then 1 else 0)
      && OutputAt(o', if sep == SEMICOLON then 0 else w.col, w.source, w.line, w.sourceCol)
  {
    var n := |to|;
    RunCommitBytes(a, o, remap, |from|, n);
    var w := Written(a, o, remap);
    RunConcat(o, CommitBytes(a, o, remap), [sep], n);
    RunSnoc(w, [], sep, n);
    assert [] + [sep] == [sep] && Run(w, [], n) == w;
    assert Commit(w, n).status == Ok;
  }

  /** A field of the input read by the loop. */
  lemma AddFieldAt(a: Scan, value: int, valpos: nat, col: int, source: int, line: int, sourceCol: int)
    requires InputAt(a, valpos, col, source, line, sourceCol)
    ensures InputAt(AddField(a, value), valpos + 1,
                    if valpos == 0 then col + value else col,
                    if valpos == 1 then source + value else source,
                    if valpos == 2 then line + value else line,
                    if valpos == 3 then sourceCol + value else sourceCol)
    ensures DigitsAt(AddField(a, value), 0, 0)
  {
  }

  lemma FollowsSame(a: Scan, a': Scan, o: Scan, from: seq<string>, to: seq<string>, base: seq<seq<Origin>>)
    requires Follows(a, o, from, to, base) && a'.segs == a.segs && a'.lines == a.lines
    ensures Follows(a', o, from, to, base)
  {
  }

  predicate DigitsAt(a: Scan, value: int, shift: nat) {
    value == FromDigits(a.digits) && shift == 5 * |a.digits|
  }

  /** The masks of the digit loop, on a value of the lookup table. */
  lemma DigitMasks(v: nat)
    requires v < 64
    ensures Low5(v) == v % 32 && (Bit5(v) <==> v >= 32)
  {
    SmallInt32(v);
  }

  /** value & 1, value >>= 1, value = -value. */
  lemma SignStep(raw: nat)
    requires raw < LIMIT
    ensures (if Odd(raw) then -Sar(raw, 1) else Sar(raw, 1)) == Signed(raw)
  {
    SmallInt32(raw);
    assert 1 % 32 == 1 && Pow2(1) == 2;
  }

  /** What a well-formed byte that is no separator does to the reader. */
  lemma StepCases(a: Scan, b: Byte, n: nat)
    requires a.status == Ok && b != SEMICOLON && b != COMMA && Step(a, b, n).status == Ok
    ensures var v := CharToInteger(b);
      && v < 64 && FromDigits(a.digits + [v % 32]) < LIMIT
      && Step(a, b, n) == if v >= 32 then a.(digits := a.digits + [v % 32])
                          else AddField(a, Signed(FromDigits(a.digits + [v % 32])))
  {
  }

  lemma AddFieldKeepsSegs(a: Scan, value: int)
    ensures AddField(a, value).segs == a.segs && AddField(a, value).lines == a.lines
  {
  }

  /** Reading one digit with 32-bit operators does what the reader does. */
  lemma ReadDigit(a: Scan, b: Byte, n: nat, value: int, shift: nat)
    requires a.status == Ok && DigitsAt(a, value, shift) && b != SEMICOLON && b != COMMA
    requires Step(a, b, n).status == Ok
    ensures Step(a, b, n).segs == a.segs && Step(a, b, n).lines == a.lines
    ensures var v := CharToInteger(b);
      var sum := value + Shl(Low5(v), shift);
      if Bit5(v) then
        Step(a, b, n) == a.(digits := a.digits + [v % 32]) && sum >= 0 && DigitsAt(Step(a, b, n), sum, shift + 5)
      else
        Step(a, b, n) == AddField(a, if Odd(sum) then -Sar(sum, 1) else Sar(sum, 1))
  {
    hide Step, AddField, Shl, Low5, Bit5, Odd, Sar, CharToInteger, FromDigits, Signed;
    StepCases(a, b, n);
    var v := CharToInteger(b);
    DigitMasks(v);
    AddDigit(a.digits, v % 32);
    SignStep(FromDigits(a.digits + [v % 32]));
    AddFieldKeepsSegs(a, Signed(FromDigits(a.digits + [v % 32])));
  }

  lemma ConcatFour(c: seq<Byte>, b1: seq<Byte>, b2: seq<Byte>, b3: seq<Byte>, b4: seq<Byte>)
    ensures c + b1 + b2 + b3 + b4 == c + (b1 + b2 + b3 + b4)
  {
  }

  /** All bytes of a source are written: the last segment, then the padding. */
  lemma TranscodeDone(a: Scan, o: Scan, c: seq<Byte>, k: nat, padded: nat, remap: seq<nat>,
                      from: seq<string>, to: seq<string>, base: seq<seq<Origin>>)
    requires a.status == Ok && Commit(a, |from|).status == Ok
    requires Follows(a, o, from, to, base) && Remaps(remap, from, to) && |to| <= 0x4000_0000
    requires o == Run(START, c, |to|) && padded == if |a.lines| < k then k - |a.lines| else 0
    ensures a.nfields <= 1 || 0 <= a.source < |remap|
    ensures var o' := Run(START, c + CommitBytes(a, o, remap) + Semis(padded), |to|);
      var w := Written(a, o, remap);
      && Transcoded(Commit(a, |from|), o', k, from, to, base)
      && o'.source == w.source && o'.line == w.line && o'.sourceCol == w.sourceCol
  {
    hide *;
    FollowsBoundary(a, o, from, to, base);
    RemapInRange(remap, from, to);
    RunCommitBytes(a, o, remap, |from|, |to|);
    ReadOn(c, CommitBytes(a, o, remap), Semis(padded), |to|);
    RunConcat(o, CommitBytes(a, o, remap), Semis(padded), |to|);
    CommitKeepsLines(a, |from|);
    if |a.lines| < k {
      TailFollows(a, o, k, remap, from, to, base);
      TranscodedWithTail(Commit(a, |from|), Run(Written(a, o, remap), Semis(padded), |to|), k, from, to, base);
    } else {
      StartColumnRestarts(c, |to|);
      NoTailFollows(a, o, k, remap, from, to, base);
      SemisPush(0);
      RunNothing(Written(a, o, remap), |to|);
      WrittenLines(a, o, remap);
      TranscodedWithoutTail(Commit(a, |from|), Written(a, o, remap), k, from, to, base);
    }
  }
}
