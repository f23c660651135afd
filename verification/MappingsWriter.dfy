/** A direct writer of mappings, and the proof that the reader understands it: reading
    what was written gives back the same lines of segments. */
module MappingsWriter {
  import opened Vlq
  import opened Mappings

  datatype Totals = Totals(col: int, source: int, line: int, sourceCol: int, name: int)

  const ZERO := Totals(0, 0, 0, 0, 0)

  function After(t: Totals, seg: Segment): Totals {
    match seg
    case Seg1(col) => t.(col := col)
    case Seg4(col, source, line, sourceCol) => Totals(col, source, line, sourceCol, t.name)
    case Seg5(col, source, line, sourceCol, name) => Totals(col, source, line, sourceCol, name)
  }

  /** Each field relative to the same field before it. */
  function Fields(t: Totals, seg: Segment): seq<int> {
    match seg
    case Seg1(col) => [col - t.col]
    case Seg4(col, source, line, sourceCol) => [col - t.col, source - t.source, line - t.line, sourceCol - t.sourceCol]
    case Seg5(col, source, line, sourceCol, name) =>
      [col - t.col, source - t.source, line - t.line, sourceCol - t.sourceCol, name - t.name]
  }

  function AfterSegs(t: Totals, segs: seq<Segment>): Totals
    decreases |segs|
  {
    if segs == [] then t else AfterSegs(After(t, segs[0]), segs[1..])
  }

  function WriteSegs(t: Totals, segs: seq<Segment>): seq<Byte>
    decreases |segs|
  {
    if segs == [] then []
    else if |segs| == 1 then EncodeAll(Fields(t, segs[0]))
    else EncodeAll(Fields(t, segs[0])) + [COMMA] + WriteSegs(After(t, segs[0]), segs[1..])
  }

  function WriteLines(t: Totals, lines: seq<seq<Segment>>): seq<Byte>
    decreases |lines|
  {
    if lines == [] then []
    else if |lines| == 1 then WriteSegs(t, lines[0])
    else WriteSegs(t, lines[0]) + [SEMICOLON] + WriteLines(AfterSegs(t, lines[0]).(col := 0), lines[1..])
  }

  predicate SegOk(seg: Segment, n: nat) {
    && InRange(seg.col)
    && (!seg.Seg1? ==> 0 <= seg.source < n && InRange(seg.source) && InRange(seg.line) && InRange(seg.sourceCol))
    && (seg.Seg5? ==> InRange(seg.name))
  }

  predicate SegsOk(segs: seq<Segment>, n: nat) {
    forall i :: 0 <= i < |segs| ==> SegOk(segs[i], n)
  }

  predicate TotalsOk(t: Totals) {
    InRange(t.col) && InRange(t.source) && InRange(t.line) && InRange(t.sourceCol) && InRange(t.name)
  }

  /** A reader between two segments with the given totals. */
  predicate At(s: Scan, t: Totals) {
    && s.status == Ok && s.digits == [] && s.nfields == 0
    && s.col == t.col && s.source == t.source && s.line == t.line && s.sourceCol == t.sourceCol && s.name == t.name
  }

  /** The reader s after one more segment. */
  function Place(s: Scan, seg: Segment): Scan {
    var t := After(Totals(s.col, s.source, s.line, s.sourceCol, s.name), seg);
    s.(col := t.col, source := t.source, line := t.line, sourceCol := t.sourceCol, name := t.name,
       segs := s.segs + [seg])
  }

  function AddFields(s: Scan, deltas: seq<int>): Scan
    decreases |deltas|
  {
    if deltas == [] then s else AddFields(AddField(s, deltas[0]), deltas[1..])
  }

  lemma {:induction false} RunFields(s: Scan, deltas: seq<int>, n: nat)
    requires s.status == Ok && s.digits == [] && s.nfields + |deltas| <= 5
    requires forall i :: 0 <= i < |deltas| ==> -0x4000_0000 < deltas[i] < 0x4000_0000
    ensures Run(s, EncodeAll(deltas), n) == AddFields(s, deltas)
    decreases |deltas|
  {
    if deltas != [] {
      hide EncodeVlq;
      RunConcat(s, EncodeVlq(deltas[0]), EncodeAll(deltas[1..]), n);
      RunEncoded(s, deltas[0], n);
      RunFields(AddField(s, deltas[0]), deltas[1..], n);
    }
  }

  lemma AddFieldsPlaces(s: Scan, t: Totals, seg: Segment, n: nat)
    requires At(s, t) && SegOk(seg, n)
    ensures AddFields(s, Fields(t, seg)).status == Ok
    ensures Commit(AddFields(s, Fields(t, seg)), n) == Place(s, seg)
  {
    var d := Fields(t, seg);
    if seg.Seg1? {
      assert AddFields(s, d) == AddField(s, d[0]) by { assert d[1..] == []; }
    } else {
      assert d[1..][1..] == d[2..] && d[2..][1..] == d[3..] && d[3..][1..] == d[4..];
      var four := AddField(AddField(AddField(AddField(s, d[0]), d[1]), d[2]), d[3]);
      assert AddFields(s, d) == AddFields(four, d[4..]) by {
        assert AddFields(s, d) == AddFields(AddField(s, d[0]), d[1..]);
        assert AddFields(AddField(AddField(s, d[0]), d[1]), d[2..])
            == AddFields(AddField(AddField(AddField(s, d[0]), d[1]), d[2]), d[3..]);
      }
      if seg.Seg5? {
        assert AddFields(four, d[4..]) == AddField(four, d[4]) by { assert d[4..][1..] == []; }
      }
    }
  }

  /** Reading one written segment. */
  lemma RunSegment(s: Scan, t: Totals, seg: Segment, n: nat)
    requires At(s, t) && TotalsOk(t) && SegOk(seg, n)
    ensures var p := Run(s, EncodeAll(Fields(t, seg)), n);
      p.status == Ok && Commit(p, n) == Place(s, seg) && Commit(p, n).status == Ok
    ensures At(Place(s, seg), After(t, seg)) && TotalsOk(After(t, seg))
  {
    RunFields(s, Fields(t, seg), n);
    AddFieldsPlaces(s, t, seg, n);
  }

  function PlaceAll(s: Scan, segs: seq<Segment>): Scan
    decreases |segs|
  {
    if segs == [] then s else PlaceAll(Place(s, segs[0]), segs[1..])
  }

  lemma {:induction false} PlaceAllAdds(s: Scan, t: Totals, segs: seq<Segment>, n: nat)
    requires At(s, t) && TotalsOk(t) && SegsOk(segs, n)
    ensures At(PlaceAll(s, segs), AfterSegs(t, segs)) && TotalsOk(AfterSegs(t, segs))
    ensures PlaceAll(s, segs).segs == s.segs + segs && PlaceAll(s, segs).lines == s.lines
    decreases |segs|
  {
    if segs != [] {
      assert SegOk(segs[0], n);
      PlaceAllAdds(Place(s, segs[0]), After(t, segs[0]), segs[1..], n);
      assert s.segs + [segs[0]] + segs[1..] == s.segs + segs;
    }
  }

  lemma CommaStep(s: Scan, n: nat)
    requires s.status == Ok
    ensures Step(s, COMMA, n) == Commit(s, n) && Step(s, SEMICOLON, n) == EndLine(Commit(s, n))
  {
  }

  lemma RunThenByte(s: Scan, a: seq<Byte>, b: Byte, rest: seq<Byte>, n: nat)
    ensures Run(s, a + [b] + rest, n) == Run(Step(Run(s, a, n), b, n), rest, n)
  {
    RunSnoc(s, a, b, n);
    RunConcat(s, a + [b], rest, n);
  }

  /** Reading a written line, up to its end. */
  lemma {:induction false} RunSegs(s: Scan, t: Totals, segs: seq<Segment>, n: nat)
    requires At(s, t) && TotalsOk(t) && SegsOk(segs, n)
    ensures var p := Run(s, WriteSegs(t, segs), n);
      p.status == Ok && Commit(p, n) == PlaceAll(s, segs) && Commit(p, n).status == Ok
    decreases |segs|
  {
    if segs != [] {
      assert SegOk(segs[0], n);
      RunSegment(s, t, segs[0], n);
      var first := EncodeAll(Fields(t, segs[0]));
      var s' := Place(s, segs[0]);
      RunSegs(s', After(t, segs[0]), segs[1..], n);
      if |segs| > 1 {
        CommaStep(Run(s, first, n), n);
        RunThenByte(s, first, COMMA, WriteSegs(After(t, segs[0]), segs[1..]), n);
      } else {
        assert segs[1..] == [];
      }
    }
  }

  lemma {:induction false} RunLines(s: Scan, t: Totals, lines: seq<seq<Segment>>, n: nat)
    requires At(s, t) && TotalsOk(t) && s.segs == [] && lines != []
    requires forall l :: 0 <= l < |lines| ==> SegsOk(lines[l], n)
    ensures var p := Run(s, WriteLines(t, lines), n);
      p.status == Ok && Commit(p, n).status == Ok && AllLines(Commit(p, n)) == s.lines + lines
    decreases |lines|
  {
    hide Run, Commit, Step, WriteSegs, PlaceAll, AfterSegs, SegsOk;
    assert SegsOk(lines[0], n);
    RunSegs(s, t, lines[0], n);
    assert [] + lines[0] == lines[0];
    PlaceAllAdds(s, t, lines[0], n);
    var p := Run(s, WriteSegs(t, lines[0]), n);
    if |lines| > 1 {
      var s' := EndLine(Commit(p, n));
      var t' := AfterSegs(t, lines[0]).(col := 0);
      CommaStep(p, n);
      RunThenByte(s, WriteSegs(t, lines[0]), SEMICOLON, WriteLines(t', lines[1..]), n);
      RunLines(s', t', lines[1..], n);
      assert s.lines + [lines[0]] + lines[1..] == s.lines + lines;
    } else {
      assert lines == [lines[0]];
    }
  }

  /** Reading what was written gives back the same segments, line by line, for all
      lines whose positions are in range. */
  lemma ReadWrittenMappings(lines: seq<seq<Segment>>, n: nat)
    requires lines != [] && (forall l :: 0 <= l < |lines| ==> SegsOk(lines[l], n))
    ensures var d := Decode(WriteLines(ZERO, lines), n);
      d.status == Ok && AllLines(d) == lines
  {
    RunLines(START, ZERO, lines, n);
    assert [] + lines == lines;
  }
}
