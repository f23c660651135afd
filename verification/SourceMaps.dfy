/** Concatenating source maps: how the mappings written for a source, read after the
    mappings already there, repeat that source's own segments. */
module SourceMaps {
  import opened Vlq
  import opened Mappings

  datatype File = Missing | File(name: string)

  /** A segment with its source resolved to a name; the name field is dropped. */
  datatype Origin = Column(col: int) | Position(col: int, file: File, line: int, sourceCol: int)

  function FileAt(sources: seq<string>, i: int): File {
    if 0 <= i < |sources| then File(sources[i]) else Missing
  }

  function Named(seg: Segment, sources: seq<string>): Origin {
    match seg
    case Seg1(col) => Column(col)
    case Seg4(col, source, line, sourceCol) => Position(col, FileAt(sources, source), line, sourceCol)
    case Seg5(col, source, line, sourceCol, _) => Position(col, FileAt(sources, source), line, sourceCol)
  }

  function NamedSegs(segs: seq<Segment>, sources: seq<string>): seq<Origin> {
    seq(|segs|, i requires 0 <= i < |segs| => Named(segs[i], sources))
  }

  function NamedLines(lines: seq<seq<Segment>>, sources: seq<string>): seq<seq<Origin>> {
    seq(|lines|, i requires 0 <= i < |lines| => NamedSegs(lines[i], sources))
  }

  /** What the decoded lines say of each segment: its column, and if it has a position, the
      name of its source, its line and column there. */
  lemma OriginAt(lines: seq<seq<Segment>>, sources: seq<string>, l: nat, i: nat)
    requires l < |lines| && i < |lines[l]|
    ensures |NamedLines(lines, sources)| == |lines| && |NamedLines(lines, sources)[l]| == |lines[l]|
    ensures var seg := lines[l][i];
      NamedLines(lines, sources)[l][i] ==
        if seg.Seg1? then Column(seg.col)
        else Position(seg.col, if 0 <= seg.source < |sources| then File(sources[seg.source]) else Missing,
                      seg.line, seg.sourceCol)
  {
  }

  /** `remap` sends each source index to the same name in another list. */
  predicate Remaps(remap: seq<nat>, from: seq<string>, to: seq<string>) {
    |remap| == |from| && forall i :: 0 <= i < |from| ==> remap[i] < |to| && to[remap[i]] == from[i]
  }

  /** The bytes that end a segment in the output: the fields of the input position,
      relative to the last position written. */
  function CommitBytes(a: Scan, o: Scan, remap: seq<nat>): seq<Byte>
    requires a.nfields <= 1 || 0 <= a.source < |remap|
  {
    if a.nfields == 0 then []
    else if a.nfields == 1 then EncodeVlq(a.col - o.col)
    else
      EncodeVlq(a.col - o.col) + EncodeVlq(remap[a.source] - o.source)
      + EncodeVlq(a.line - o.line) + EncodeVlq(a.sourceCol - o.sourceCol)
  }

  /** Between two segments, ready for the next one, all totals in range. */
  predicate AtBoundary(o: Scan) {
    && o.status == Ok && o.digits == [] && o.nfields == 0
    && InRange(o.col) && InRange(o.source) && InRange(o.line) && InRange(o.sourceCol)
  }

  /** The output reader o has seen, after `base`, what the input reader a has seen. */
  ghost predicate Follows(a: Scan, o: Scan, from: seq<string>, to: seq<string>, base: seq<seq<Origin>>) {
    && AtBoundary(o)
    && NamedSegs(o.segs, to) == NamedSegs(a.segs, from)
    && NamedLines(o.lines, to) == base + NamedLines(a.lines, from)
  }

  /** The output reader after the bytes of a commit: the fields are read, the segment is
      not ended yet. */
  function Written(a: Scan, o: Scan, remap: seq<nat>): Scan
    requires a.nfields <= 1 || 0 <= a.source < |remap|
  {
    if a.nfields == 0 then o
    else if a.nfields == 1 then o.(nfields := 1, col := a.col)
    else o.(nfields := 4, col := a.col, source := remap[a.source], line := a.line, sourceCol := a.sourceCol)
  }

  lemma CommitInRange(a: Scan, n: nat)
    requires a.status == Ok && Commit(a, n).status == Ok
    ensures a.digits == [] && a.nfields in {0, 1, 4, 5} && InRange(a.col)
    ensures a.nfields > 1 ==> 0 <= a.source < n && InRange(a.source) && InRange(a.line) && InRange(a.sourceCol)
  {
  }

  function AddFour(o: Scan, d1: int, d2: int, d3: int, d4: int): Scan {
    AddField(AddField(AddField(AddField(o, d1), d2), d3), d4)
  }

  lemma AddFourSets(o: Scan, d1: int, d2: int, d3: int, d4: int)
    requires o.nfields == 0 && o.digits == []
    ensures AddFour(o, d1, d2, d3, d4) == o.(nfields := 4, col := o.col + d1, source := o.source + d2,
                                             line := o.line + d3, sourceCol := o.sourceCol + d4)
  {
  }

  predicate Small(d: int) { -0x4000_0000 < d < 0x4000_0000 }

  lemma AddFieldReady(o: Scan, d: int)
    requires o.status == Ok && o.nfields < 5
    ensures AddField(o, d).status == Ok && AddField(o, d).digits == [] && AddField(o, d).nfields == o.nfields + 1
  {
  }

  /** Four encoded differences in a row are four fields. */
  lemma RunFour(o: Scan, d1: int, d2: int, d3: int, d4: int, n: nat)
    requires o.status == Ok && o.digits == [] && o.nfields == 0
    requires Small(d1) && Small(d2) && Small(d3) && Small(d4)
    ensures Run(o, EncodeVlq(d1) + EncodeVlq(d2) + EncodeVlq(d3) + EncodeVlq(d4), n) == AddFour(o, d1, d2, d3, d4)
  {
    hide Run, EncodeVlq, AddField;
    var b1, b2, b3, b4 := EncodeVlq(d1), EncodeVlq(d2), EncodeVlq(d3), EncodeVlq(d4);
    RunConcat(o, b1 + b2 + b3, b4, n);
    RunConcat(o, b1 + b2, b3, n);
    RunConcat(o, b1, b2, n);
    AddFieldReady(o, d1);
    AddFieldReady(AddField(o, d1), d2);
    AddFieldReady(AddField(AddField(o, d1), d2), d3);
    RunEncoded(o, d1, n);
    RunEncoded(AddField(o, d1), d2, n);
    RunEncoded(AddField(AddField(o, d1), d2), d3, n);
    RunEncoded(AddField(AddField(AddField(o, d1), d2), d3), d4, n);
  }

  /** Reading the bytes of a commit sets the output totals to the input position. */
  lemma RunCommitBytes(a: Scan, o: Scan, remap: seq<nat>, from: nat, n: nat)
    requires a.status == Ok && Commit(a, from).status == Ok && |remap| == from
    requires AtBoundary(o) && (forall i :: 0 <= i < |remap| ==> remap[i] < n) && n <= 0x4000_0000
    ensures a.nfields <= 1 || 0 <= a.source < |remap|
    ensures Run(o, CommitBytes(a, o, remap), n) == Written(a, o, remap)
  {
    CommitInRange(a, from);
    hide EncodeVlq, Run, Commit;
    if a.nfields == 0 {
      RunNothing(o, n);
    } else if a.nfields == 1 {
      RunEncoded(o, a.col - o.col, n);
    } else {
      var d1, d2 := a.col - o.col, remap[a.source] - o.source;
      var d3, d4 := a.line - o.line, a.sourceCol - o.sourceCol;
      RunFour(o, d1, d2, d3, d4, n);
      AddFourSets(o, d1, d2, d3, d4);
    }
  }

  lemma RunNothing(o: Scan, n: nat)
    ensures Run(o, [], n) == o
  {
  }

  lemma NamedPush(segs: seq<Segment>, seg: Segment, sources: seq<string>)
    ensures NamedSegs(segs + [seg], sources) == NamedSegs(segs, sources) + [Named(seg, sources)]
  {
  }

  lemma NamedLinesPush(lines: seq<seq<Segment>>, segs: seq<Segment>, sources: seq<string>)
    ensures NamedLines(lines + [segs], sources) == NamedLines(lines, sources) + [NamedSegs(segs, sources)]
  {
  }

  /** Ending the segment on both sides keeps them together. */
  lemma CommitFollows(a: Scan, o: Scan, remap: seq<nat>, from: seq<string>, to: seq<string>, base: seq<seq<Origin>>)
    requires a.status == Ok && Commit(a, |from|).status == Ok
    requires Follows(a, o, from, to, base) && Remaps(remap, from, to) && |to| <= 0x4000_0000
    ensures a.nfields <= 1 || 0 <= a.source < |remap|
    ensures Follows(Commit(a, |from|), Commit(Written(a, o, remap), |to|), from, to, base)
  {
    CommitInRange(a, |from|);
    var w := Written(a, o, remap);
    if a.nfields > 0 {
      var a', o' := Commit(a, |from|), Commit(w, |to|);
      NamedPush(a.segs, a'.segs[|a.segs|], from);
      NamedPush(o.segs, o'.segs[|o.segs|], to);
    }
  }

  lemma EndLineFollows(a: Scan, o: Scan, from: seq<string>, to: seq<string>, base: seq<seq<Origin>>)
    requires a.status == Ok && Follows(a, o, from, to, base)
    ensures Follows(EndLine(a), EndLine(o), from, to, base)
  {
    NamedLinesPush(a.lines, a.segs, from);
    NamedLinesPush(o.lines, o.segs, to);
  }

  /** A separator in the input: the pending segment is written, then the separator. */
  lemma SeparatorFollows(a: Scan, o: Scan, sep: Byte, remap: seq<nat>, from: seq<string>, to: seq<string>,
      base: seq<seq<Origin>>)
    requires sep == SEMICOLON || sep == COMMA
    requires a.status == Ok && Step(a, sep, |from|).status == Ok
    requires Follows(a, o, from, to, base) && Remaps(remap, from, to) && |to| <= 0x4000_0000
    ensures Commit(a, |from|).status == Ok
    ensures a.nfields <= 1 || 0 <= a.source < |remap|
    ensures Follows(Step(a, sep, |from|), Run(o, CommitBytes(a, o, remap) + [sep], |to|), from, to, base)
  {
    assert Commit(a, |from|).status == Ok;
    RunCommitBytes(a, o, remap, |from|, |to|);
    CommitFollows(a, o, remap, from, to, base);
    var w := Written(a, o, remap);
    RunConcat(o, CommitBytes(a, o, remap), [sep], |to|);
    RunSnoc(w, [], sep, |to|);
    assert [] + [sep] == [sep] && Run(w, [], |to|) == w;
    if sep == SEMICOLON {
      EndLineFollows(Commit(a, |from|), Commit(w, |to|), from, to, base);
    }
  }

  // ---------- the end of a source ----------

  function Semis(k: nat): seq<Byte> {
    seq(k, _ => SEMICOLON)
  }

  function Blanks<T>(k: nat): seq<seq<T>> {
    seq(k, _ => [])
  }

  /** Exactly k lines: the given ones, blank ones after them, none beyond. */
  function Fitted<T>(lines: seq<seq<T>>, k: nat): seq<seq<T>> {
    if |lines| <= k then lines + Blanks(k - |lines|) else lines[..k]
  }

  lemma FittedAt<T>(lines: seq<seq<T>>, k: nat, l: nat)
    requires l < k
    ensures |Fitted(lines, k)| == k && Fitted(lines, k)[l] == if l < |lines| then lines[l] else []
  {
  }

  /** No segment lies beyond the last of k lines. */
  predicate LinesFit(a: Scan, k: nat) {
    |a.lines| < k || (|a.lines| == k && a.segs == [])
  }

  /** Lines fit when there are at most k, or one more that is empty. */
  lemma LinesFitAt(a: Scan, k: nat)
    ensures LinesFit(a, k) <==> |AllLines(a)| <= k || (|AllLines(a)| == k + 1 && AllLines(a)[k] == [])
    ensures |AllLines(a)| == |a.lines| + 1 && AllLines(a)[|a.lines|] == a.segs
  {
  }

  /** Nothing is pending on an empty line. */
  predicate Aligned(o: Scan) {
    AtBoundary(o) && o.segs == [] && o.col == 0
  }

  lemma {:induction false} RunSemis(o: Scan, k: nat, n: nat)
    requires Aligned(o)
    ensures Run(o, Semis(k), n) == o.(lines := o.lines + Blanks(k))
    decreases k
  {
    if k > 0 {
      var o1 := Step(o, SEMICOLON, n);
      assert Semis(k)[1..] == Semis(k - 1);
      assert o1 == o.(lines := o.lines + [[]]);
      RunSemis(o1, k - 1, n);
      assert o.lines + [[]] + Blanks(k - 1) == o.lines + Blanks(k);
    }
  }

  /** Columns restart on every line. */
  predicate ColumnRestarts(s: Scan) {
    s.status == Ok && s.segs == [] && s.nfields == 0 ==> s.col == 0
  }

  lemma {:induction false} RunColumnRestarts(s: Scan, bytes: seq<Byte>, n: nat)
    requires ColumnRestarts(s)
    ensures ColumnRestarts(Run(s, bytes, n))
    decreases |bytes|
  {
    if bytes != [] {
      RunColumnRestarts(Step(s, bytes[0], n), bytes[1..], n);
    }
  }

  lemma NamedBlanks(k: nat, sources: seq<string>)
    ensures NamedLines(Blanks(k), sources) == Blanks(k)
  {
    forall i | 0 <= i < k
      ensures NamedLines(Blanks(k), sources)[i] == []
    {
      assert NamedSegs([], sources) == [];
    }
  }

  lemma NamedLinesConcat(x: seq<seq<Segment>>, y: seq<seq<Segment>>, sources: seq<string>)
    ensures NamedLines(x + y, sources) == NamedLines(x, sources) + NamedLines(y, sources)
  {
  }

  /** The first padding byte ends the pending segment and line, the others add lines. */
  lemma RunPadding(w: Scan, d: nat, n: nat)
    requires d > 0 && w.status == Ok && AtBoundary(Commit(w, n))
    ensures var o := Run(w, Semis(d), n);
      && o.lines == EndLine(Commit(w, n)).lines + Blanks(d - 1)
      && Aligned(o) && o.source == w.source && o.line == w.line && o.sourceCol == w.sourceCol
  {
    assert Step(w, SEMICOLON, n) == EndLine(Commit(w, n));
    assert Semis(d)[1..] == Semis(d - 1);
    RunSemis(EndLine(Commit(w, n)), d - 1, n);
  }

  lemma NamedPadding(lines: seq<seq<Segment>>, d: nat, to: seq<string>, base: seq<seq<Origin>>, x: seq<seq<Origin>>)
    requires NamedLines(lines, to) == base + x
    ensures NamedLines(lines + Blanks(d), to) == base + Fitted(x, |x| + d)
  {
    NamedLinesConcat(lines, Blanks(d), to);
    NamedBlanks(d, to);
    assert base + x + Blanks(d) == base + (x + Blanks(d));
  }

  /** What following means once a line has ended. */
  lemma EndedLine(a: Scan, o: Scan, from: seq<string>, to: seq<string>, base: seq<seq<Origin>>)
    requires a.status == Ok && Follows(a, o, from, to, base)
    ensures AtBoundary(o) && EndLine(a).lines == AllLines(a)
    ensures NamedLines(EndLine(o).lines, to) == base + NamedLines(AllLines(a), from)
    ensures |NamedLines(AllLines(a), from)| == |a.lines| + 1
  {
    EndLineFollows(a, o, from, to, base);
  }

  lemma CommitKeepsLines(w: Scan, n: nat)
    ensures Commit(w, n).lines == w.lines
  {
  }

  lemma WrittenOk(a: Scan, o: Scan, remap: seq<nat>)
    requires a.nfields <= 1 || 0 <= a.source < |remap|
    requires AtBoundary(o)
    ensures Written(a, o, remap).status == Ok
  {
  }

  lemma FollowsBoundary(a: Scan, o: Scan, from: seq<string>, to: seq<string>, base: seq<seq<Origin>>)
    requires Follows(a, o, from, to, base)
    ensures AtBoundary(o)
  {
  }

  /** The last segment is written, and the rest of the source's k lines are padded. */
  lemma TailFollows(a: Scan, o: Scan, k: nat, remap: seq<nat>, from: seq<string>, to: seq<string>,
      base: seq<seq<Origin>>)
    requires a.status == Ok && Commit(a, |from|).status == Ok && |a.lines| < k
    requires Follows(a, o, from, to, base) && Remaps(remap, from, to) && |to| <= 0x4000_0000
    ensures a.nfields <= 1 || 0 <= a.source < |remap|
    ensures var o' := Run(Written(a, o, remap), Semis(k - |a.lines|), |to|);
      && Aligned(o')
      && NamedLines(o'.lines, to) == base + Fitted(NamedLines(AllLines(Commit(a, |from|)), from), k)
      && o'.source == Written(a, o, remap).source && o'.line == Written(a, o, remap).line
      && o'.sourceCol == Written(a, o, remap).sourceCol
  {
    hide *;
    FollowsBoundary(a, o, from, to, base);
    CommitFollows(a, o, remap, from, to, base);
    var w, d := Written(a, o, remap), k - |a.lines|;
    WrittenOk(a, o, remap);
    EndedLine(Commit(a, |from|), Commit(w, |to|), from, to, base);
    CommitKeepsLines(a, |from|);
    RunPadding(w, d, |to|);
    NamedPadding(EndLine(Commit(w, |to|)).lines, d - 1, to, base, NamedLines(AllLines(Commit(a, |from|)), from));
  }

  /** Without padding the output is aligned exactly when the lines fit. */
  lemma NoTailFollows(a: Scan, o: Scan, k: nat, remap: seq<nat>, from: seq<string>, to: seq<string>,
      base: seq<seq<Origin>>)
    requires a.status == Ok && Commit(a, |from|).status == Ok && |a.lines| >= k
    requires Follows(a, o, from, to, base) && Remaps(remap, from, to) && |to| <= 0x4000_0000
    requires ColumnRestarts(o)
    ensures a.nfields <= 1 || 0 <= a.source < |remap|
    ensures |o.lines| == |base| + |a.lines|
    ensures Aligned(Written(a, o, remap)) <==> Commit(a, |from|).segs == []
    ensures LinesFit(Commit(a, |from|), k) ==>
      NamedLines(o.lines, to) == base + Fitted(NamedLines(AllLines(Commit(a, |from|)), from), k)
  {
    CommitInRange(a, |from|);
    assert |NamedSegs(o.segs, to)| == |o.segs| && |NamedSegs(a.segs, from)| == |a.segs|;
    assert |NamedLines(o.lines, to)| == |o.lines| && |NamedLines(a.lines, from)| == |a.lines|;
    var a1 := Commit(a, |from|);
    if LinesFit(a1, k) {
      NamedLinesPush(a.lines, a1.segs, from);
      assert NamedLines(AllLines(a1), from)[..k] == NamedLines(a.lines, from);
    }
  }

  /** What transcoding a source with decoded mappings `a` onto `base` must achieve: the
      mappings stay one line per newline exactly when the source's lines fit, and then
      they say what the source's own mappings say. */
  ghost predicate Transcoded(a: Scan, o: Scan, k: nat, from: seq<string>, to: seq<string>, base: seq<seq<Origin>>) {
    && (Aligned(o) && |o.lines| == |base| + k <==> LinesFit(a, k))
    && (LinesFit(a, k) ==> NamedLines(o.lines, to) == base + Fitted(NamedLines(AllLines(a), from), k))
  }

  lemma TranscodedParts(a: Scan, o: Scan, k: nat, from: seq<string>, to: seq<string>, base: seq<seq<Origin>>)
    requires Transcoded(a, o, k, from, to, base)
    ensures Aligned(o) && |o.lines| == |base| + k <==> LinesFit(a, k)
    ensures LinesFit(a, k) ==> NamedLines(o.lines, to) == base + Fitted(NamedLines(AllLines(a), from), k)
  {
  }

  lemma TranscodedWithTail(a: Scan, o: Scan, k: nat, from: seq<string>, to: seq<string>, base: seq<seq<Origin>>)
    requires |a.lines| < k && Aligned(o)
    requires NamedLines(o.lines, to) == base + Fitted(NamedLines(AllLines(a), from), k)
    ensures Transcoded(a, o, k, from, to, base)
  {
    assert |NamedLines(o.lines, to)| == |o.lines|;
  }

  lemma TranscodedWithoutTail(a: Scan, o: Scan, k: nat, from: seq<string>, to: seq<string>, base: seq<seq<Origin>>)
    requires |a.lines| >= k && |o.lines| == |base| + |a.lines|
    requires Aligned(o) <==> a.segs == []
    requires LinesFit(a, k) ==> NamedLines(o.lines, to) == base + Fitted(NamedLines(AllLines(a), from), k)
    ensures Transcoded(a, o, k, from, to, base)
  {
  }

  lemma RemapInRange(remap: seq<nat>, from: seq<string>, to: seq<string>)
    requires Remaps(remap, from, to)
    ensures |remap| == |from| && forall i :: 0 <= i < |remap| ==> remap[i] < |to|
  {
  }

  lemma StartColumnRestarts(bytes: seq<Byte>, n: nat)
    ensures ColumnRestarts(Run(START, bytes, n))
  {
    RunColumnRestarts(START, bytes, n);
  }

  lemma WrittenLines(a: Scan, o: Scan, remap: seq<nat>)
    requires a.nfields <= 1 || 0 <= a.source < |remap|
    ensures Written(a, o, remap).lines == o.lines
  {
  }

  // ---------- sources of decoded segments ----------

  predicate SegIn(seg: Segment, n: nat) {
    seg.Seg1? || 0 <= seg.source < n
  }

  ghost predicate SegsIn(s: Scan, n: nat) {
    && (forall i :: 0 <= i < |s.segs| ==> SegIn(s.segs[i], n))
    && (forall l, i :: 0 <= l < |s.lines| && 0 <= i < |s.lines[l]| ==> SegIn(s.lines[l][i], n))
  }

  lemma StepSegsIn(s: Scan, b: Byte, n: nat)
    requires SegsIn(s, n)
    ensures SegsIn(Step(s, b, n), n)
  {
    if s.status == Ok && (b == SEMICOLON || b == COMMA) {
      var c := Commit(s, n);
      assert SegsIn(c, n);
      assert SegsIn(EndLine(c), n);
    }
  }

  /** Every decoded segment names one of the n sources. */
  lemma {:induction false} RunSegsIn(s: Scan, bytes: seq<Byte>, n: nat)
    requires SegsIn(s, n)
    ensures SegsIn(Run(s, bytes, n), n)
    decreases |bytes|
  {
    if bytes != [] {
      StepSegsIn(s, bytes[0], n);
      RunSegsIn(Step(s, bytes[0], n), bytes[1..], n);
    }
  }

  lemma NamedMoreSources(s: Scan, from: seq<string>, to: seq<string>)
    requires from <= to && SegsIn(s, |from|)
    ensures NamedLines(s.lines, to) == NamedLines(s.lines, from)
  {
    forall l | 0 <= l < |s.lines|
      ensures NamedSegs(s.lines[l], to) == NamedSegs(s.lines[l], from)
    {
      forall i | 0 <= i < |s.lines[l]|
        ensures Named(s.lines[l][i], to) == Named(s.lines[l][i], from)
      {
        assert SegIn(s.lines[l][i], |from|);
      }
    }
  }

  /** What was written stays as it was when sources are added to the list. */
  lemma ReaderGrows(bytes: seq<Byte>, from: seq<string>, to: seq<string>)
    requires from <= to && Run(START, bytes, |from|).status == Ok
    ensures Run(START, bytes, |to|) == Run(START, bytes, |from|)
    ensures NamedLines(Run(START, bytes, |to|).lines, to) == NamedLines(Run(START, bytes, |from|).lines, from)
  {
    MoreSources(START, bytes, |from|, |to|);
    RunSegsIn(START, bytes, |from|);
    NamedMoreSources(Run(START, bytes, |from|), from, to);
  }
}
