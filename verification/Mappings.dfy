/** The meaning of a source map's mappings: lines of segments with absolute positions,
    read from a byte sequence in which positions are relative. */
module Mappings {
  import opened Int32
  import opened Vlq

  datatype Segment =
    | Seg1(col: int)
    | Seg4(col: int, source: int, line: int, sourceCol: int)
    | Seg5(col: int, source: int, line: int, sourceCol: int, name: int)

  /** InvalidByte: a byte outside the alphabet. Malformed: a segment with a wrong number
      of fields, a number cut short or too wide, or a position out of range. */
  datatype Status = Ok | InvalidByte | Malformed

  /** A reader in the middle of mappings: the digits of the number being read, how many
      fields the current segment has, the running totals, the finished segments of the
      current line, and the finished lines. */
  datatype Scan = Scan(
    digits: seq<nat>,
    nfields: nat,
    col: int, source: int, line: int, sourceCol: int, name: int,
    segs: seq<Segment>,
    lines: seq<seq<Segment>>,
    status: Status)

  const START := Scan([], 0, 0, 0, 0, 0, 0, [], [], Ok)

  predicate InRange(x: int) { 0 <= x < 0x4000_0000 }

  predicate PositionOk(s: Scan, nsources: nat) {
    && InRange(s.col)
    && (s.nfields >= 4 ==> 0 <= s.source < nsources && InRange(s.source) && InRange(s.line) && InRange(s.sourceCol))
  }

  /** The end of a segment; a segment without fields says nothing. */
  function Commit(s: Scan, nsources: nat): Scan {
    if s.digits != [] || !(s.nfields in {0, 1, 4, 5}) || !PositionOk(s, nsources) then s.(status := Malformed)
    else if s.nfields == 0 then s
    else
      var seg :=
        if s.nfields == 1 then Seg1(s.col)
        else if s.nfields == 4 then Seg4(s.col, s.source, s.line, s.sourceCol)
        else Seg5(s.col, s.source, s.line, s.sourceCol, s.name);
      s.(nfields := 0, segs := s.segs + [seg])
  }

  function EndLine(s: Scan): Scan {
    if s.status != Ok then s else s.(lines := s.lines + [s.segs], segs := [], col := 0)
  }

  /** One more field, relative to the same field before; columns restart on each line. */
  function AddField(s: Scan, delta: int): Scan {
    var t := s.(digits := [], nfields := s.nfields + 1);
    match s.nfields
    case 0 => t.(col := s.col + delta)
    case 1 => t.(source := s.source + delta)
    case 2 => t.(line := s.line + delta)
    case 3 => t.(sourceCol := s.sourceCol + delta)
    case 4 => t.(name := s.name + delta)
    case _ => t.(status := Malformed)
  }

  /** One more byte. */
  function Step(s: Scan, b: Byte, nsources: nat): Scan {
    if s.status != Ok then s
    else if b == SEMICOLON then EndLine(Commit(s, nsources))
    else if b == COMMA then Commit(s, nsources)
    else
      var v := CharToInteger(b);
      if v == 255 then s.(status := InvalidByte)
      else if v == 64 || FromDigits(s.digits + [v % 32]) >= LIMIT then s.(status := Malformed)
      else if v >= 32 then s.(digits := s.digits + [v % 32])
      else AddField(s, Signed(FromDigits(s.digits + [v])))
  }

  function Run(s: Scan, bytes: seq<Byte>, nsources: nat): Scan
    decreases |bytes|
  {
    if bytes == [] then s else Run(Step(s, bytes[0], nsources), bytes[1..], nsources)
  }

  /** A whole mappings text: the last segment ends with the text. */
  function Decode(bytes: seq<Byte>, nsources: nat): Scan {
    var s := Run(START, bytes, nsources);
    if s.status != Ok then s else Commit(s, nsources)
  }

  /** The decoded lines, the one that the text ends in included. */
  function AllLines(s: Scan): seq<seq<Segment>> {
    s.lines + [s.segs]
  }

  // ---------- reading piece by piece ----------

  lemma {:induction false} RunConcat(s: Scan, a: seq<Byte>, b: seq<Byte>, nsources: nat)
    ensures Run(s, a + b, nsources) == Run(Run(s, a, nsources), b, nsources)
    decreases |a|
  {
    if a == [] {
      assert a + b == b;
    } else {
      assert (a + b)[1..] == a[1..] + b;
      RunConcat(Step(s, a[0], nsources), a[1..], b, nsources);
    }
  }

  lemma RunSnoc(s: Scan, a: seq<Byte>, b: Byte, nsources: nat)
    ensures Run(s, a + [b], nsources) == Step(Run(s, a, nsources), b, nsources)
  {
    RunConcat(s, a, [b], nsources);
    assert Run(Run(s, a, nsources), [b], nsources) == Step(Run(s, a, nsources), b, nsources) by {
      assert [b][1..] == [];
    }
  }

  /** Once something is wrong it stays wrong. */
  lemma {:induction false} RunStuck(s: Scan, bytes: seq<Byte>, nsources: nat)
    requires s.status != Ok
    ensures Run(s, bytes, nsources) == s
    decreases |bytes|
  {
    if bytes != [] {
      RunStuck(s, bytes[1..], nsources);
    }
  }

  /** A prefix of text that is not malformed is not malformed. */
  lemma PrefixStatus(bytes: seq<Byte>, k: nat, nsources: nat)
    requires k <= |bytes|
    ensures Run(START, bytes[..k], nsources).status != Ok ==>
      Run(START, bytes, nsources) == Run(START, bytes[..k], nsources)
  {
    assert bytes == bytes[..k] + bytes[k..];
    RunConcat(START, bytes[..k], bytes[k..], nsources);
    if Run(START, bytes[..k], nsources).status != Ok {
      RunStuck(Run(START, bytes[..k], nsources), bytes[k..], nsources);
    }
  }

  /** More sources do not change the meaning of text that was well formed. */
  lemma {:induction false} MoreSources(s: Scan, bytes: seq<Byte>, n: nat, n': nat)
    requires n <= n' && Run(s, bytes, n).status == Ok
    ensures Run(s, bytes, n') == Run(s, bytes, n)
    decreases |bytes|
  {
    if bytes != [] {
      if Step(s, bytes[0], n).status != Ok {
        RunStuck(Step(s, bytes[0], n), bytes[1..], n);
      }
      MoreSources(Step(s, bytes[0], n), bytes[1..], n, n');
    }
  }

  // ---------- reading one encoded number ----------

  lemma StepDigit(s: Scan, v: nat, nsources: nat)
    requires s.status == Ok && v < 64 && FromDigits(s.digits + [v % 32]) < LIMIT
    ensures Step(s, IntegerToChar(v), nsources) ==
      if v >= 32 then s.(digits := s.digits + [v % 32]) else AddField(s, Signed(FromDigits(s.digits + [v])))
  {
    AlphabetRoundTrip(v);
  }

  lemma AddFieldForgetsDigits(s: Scan, ds: seq<nat>, delta: int)
    ensures AddField(s.(digits := ds), delta) == AddField(s, delta)
  {
  }

  lemma {:induction false} RunEncodedRaw(s: Scan, raw: nat, nsources: nat)
    requires s.status == Ok && Appended(s.digits, raw) < LIMIT && raw < LIMIT
    ensures Run(s, EncodeRaw(raw), nsources) == AddField(s, Signed(Appended(s.digits, raw)))
    decreases raw
  {
    hide Appended, EncodeRaw, Step, AddField, FromDigits, IntegerToChar, Signed;
    var bytes := EncodeRaw(raw);
    AppendedSplits(s.digits, raw);
    EncodeRawUnfolds(raw);
    if raw >= 32 {
      var ds := s.digits + [raw % 32];
      AppendedAtLeast(ds, raw / 32);
      StepDigit(s, raw % 32 + 32, nsources);
      assert bytes[0] == IntegerToChar(raw % 32 + 32) && bytes[1..] == EncodeRaw(raw / 32);
      RunEncodedRaw(s.(digits := ds), raw / 32, nsources);
      AddFieldForgetsDigits(s, ds, Signed(Appended(ds, raw / 32)));
    } else {
      StepDigit(s, raw, nsources);
      assert bytes[0] == IntegerToChar(raw) && bytes[1..] == [];
    }
  }

  lemma AppendedAtLeast(ds: seq<nat>, raw: nat)
    ensures Appended(ds, raw) >= FromDigits(ds)
  {
  }

  /** Reading an encoded number at the start of a field adds that field. */
  lemma RunEncoded(s: Scan, num: int, nsources: nat)
    requires s.status == Ok && s.digits == [] && -0x4000_0000 < num < 0x4000_0000
    ensures Run(s, EncodeVlq(num), nsources) == AddField(s, num)
  {
    RawOfSmall(num);
    assert Appended([], RawOf(num)) == RawOf(num);
    RunEncodedRaw(s, RawOf(num), nsources);
  }

  // ---------- an example ----------

  /** A short digit is a whole field. */
  lemma RunShort(s: Scan, b: Byte, rest: seq<Byte>, nsources: nat)
    requires s.status == Ok && s.digits == [] && CharToInteger(b) < 32
    ensures Run(s, [b] + rest, nsources) == Run(AddField(s, Signed(CharToInteger(b))), rest, nsources)
  {
    var v := CharToInteger(b);
    assert FromDigits([] + [v]) == v && s.digits + [v] == [v];
    assert ([b] + rest)[1..] == rest;
  }

  lemma RunShortSegment(s: Scan, b1: Byte, b2: Byte, b3: Byte, b4: Byte, rest: seq<Byte>, nsources: nat)
    requires s.status == Ok && s.digits == [] && s.nfields == 0
    requires CharToInteger(b1) < 32 && CharToInteger(b2) < 32 && CharToInteger(b3) < 32 && CharToInteger(b4) < 32
    ensures Run(s, [b1, b2, b3, b4] + rest, nsources) ==
      Run(s.(nfields := 4, col := s.col + Signed(CharToInteger(b1)), source := s.source + Signed(CharToInteger(b2)),
             line := s.line + Signed(CharToInteger(b3)), sourceCol := s.sourceCol + Signed(CharToInteger(b4))),
          rest, nsources)
  {
    hide Run, CharToInteger, Signed;
    assert [b1, b2, b3, b4] + rest == [b1] + ([b2] + ([b3] + ([b4] + rest)));
    var s1 := AddField(s, Signed(CharToInteger(b1)));
    var s2 := AddField(s1, Signed(CharToInteger(b2)));
    var s3 := AddField(s2, Signed(CharToInteger(b3)));
    RunShort(s, b1, [b2] + ([b3] + ([b4] + rest)), nsources);
    RunShort(s1, b2, [b3] + ([b4] + rest), nsources);
    RunShort(s2, b3, [b4] + rest, nsources);
    RunShort(s3, b4, rest, nsources);
  }

  lemma RunByte(s: Scan, b: Byte, rest: seq<Byte>, nsources: nat)
    ensures Run(s, [b] + rest, nsources) == Run(Step(s, b, nsources), rest, nsources)
  {
    assert ([b] + rest)[1..] == rest;
  }

  lemma StepEnds(s: Scan, nsources: nat)
    requires s.status == Ok && s.digits == [] && s.nfields == 4 && PositionOk(s, nsources)
    ensures var segs := s.segs + [Seg4(s.col, s.source, s.line, s.sourceCol)];
      && Step(s, COMMA, nsources) == s.(nfields := 0, segs := segs)
      && Step(s, SEMICOLON, nsources) == s.(nfields := 0, segs := [], col := 0, lines := s.lines + [segs])
  {
  }

  lemma StepBlank(s: Scan, nsources: nat)
    requires s.status == Ok && s.digits == [] && s.nfields == 0 && PositionOk(s, nsources)
    ensures Step(s, SEMICOLON, nsources) == s.(segs := [], col := 0, lines := s.lines + [s.segs])
  {
  }

  lemma ExampleDigits()
    ensures CharToInteger(65) == 0 && CharToInteger(67) == 2 && CharToInteger(73) == 8
    ensures Signed(0) == 0 && Signed(2) == 1 && Signed(8) == 4
  {
  }

  /** "AAAA;": a segment at the origin, and the end of its line. */
  lemma ExampleFirstLine(rest: seq<Byte>)
    ensures Run(START, [65, 65, 65, 65] + ([SEMICOLON] + rest), 1)
         == Run(START.(lines := [[Seg4(0, 0, 0, 0)]]), rest, 1)
  {
    ExampleDigits();
    hide Run, Step, CharToInteger, Signed;
    var t, p := START.(nfields := 4), Seg4(0, 0, 0, 0);
    RunShortSegment(START, 65, 65, 65, 65, [SEMICOLON] + rest, 1);
    RunByte(t, SEMICOLON, rest, 1);
    StepEnds(t, 1);
    assert [] + [p] == [p] && [] + [[p]] == [[p]];
  }

  /** "AACA,IAAI;": one at the start of the second source line, and one four columns on, in
      both texts. */
  lemma ExampleSecondLine(s: Scan, rest: seq<Byte>)
    requires s == START.(lines := [[Seg4(0, 0, 0, 0)]])
    ensures Run(s, [65, 65, 67, 65] + ([COMMA] + ([73, 65, 65, 73] + ([SEMICOLON] + rest))), 1)
         == Run(s.(line := 1, sourceCol := 4, lines := s.lines + [[Seg4(0, 0, 1, 0), Seg4(4, 0, 1, 4)]]), rest, 1)
  {
    ExampleDigits();
    hide Run, Step, CharToInteger, Signed;
    var q, r := Seg4(0, 0, 1, 0), Seg4(4, 0, 1, 4);
    var more := [73, 65, 65, 73] + ([SEMICOLON] + rest);
    var t1 := s.(nfields := 4, line := 1);
    RunShortSegment(s, 65, 65, 67, 65, [COMMA] + more, 1);
    RunByte(t1, COMMA, more, 1);
    StepEnds(t1, 1);
    var s2 := s.(line := 1, segs := [q]);
    assert [] + [q] == [q];
    var t2 := s2.(nfields := 4, col := 4, sourceCol := 4);
    RunShortSegment(s2, 73, 65, 65, 73, [SEMICOLON] + rest, 1);
    RunByte(t2, SEMICOLON, rest, 1);
    StepEnds(t2, 1);
    assert [q] + [r] == [q, r];
  }

  /** ";CAACC": an empty line, and a last segment with a name. */
  lemma ExampleLastLine(s: Scan)
    requires s.status == Ok && s.digits == [] && s.nfields == 0 && s.segs == []
    requires s.col == 0 && s.source == 0 && s.line == 1 && s.sourceCol == 4 && s.name == 0
    ensures var d := Run(s, [SEMICOLON] + ([67, 65, 65, 67] + [67]), 1);
      && d.status == Ok && Commit(d, 1).status == Ok
      && AllLines(Commit(d, 1)) == s.lines + [[]] + [[Seg5(1, 0, 1, 5, 1)]]
  {
    ExampleDigits();
    hide Run, Step, CharToInteger, Signed;
    RunByte(s, SEMICOLON, [67, 65, 65, 67] + [67], 1);
    StepBlank(s, 1);
    var s' := s.(lines := s.lines + [[]]);
    var t := s'.(nfields := 4, col := 1, sourceCol := 5);
    RunShortSegment(s', 67, 65, 65, 67, [67], 1);
    var t' := t.(nfields := 5, name := 1);
    RunShort(t, 67, [], 1);
    assert [67] + [] == [67] && AddField(t, 1) == t';
    RunNothingMore(t', 1);
    assert [] + [Seg5(1, 0, 1, 5, 1)] == [Seg5(1, 0, 1, 5, 1)];
  }

  /** What the mappings "AAAA;AACA,IAAI;;CAACC" say. */
  lemma DecodedExample()
    ensures var A, C, I := 'A' as int, 'C' as int, 'I' as int;
      var d := Decode([A, A, A, A, ';' as int] + [A, A, C, A, ',' as int] + [I, A, A, I, ';' as int, ';' as int]
                      + [C, A, A, C, C], 1);
      && d.status == Ok
      && AllLines(d) == [[Seg4(0, 0, 0, 0)], [Seg4(0, 0, 1, 0), Seg4(4, 0, 1, 4)], [], [Seg5(1, 0, 1, 5, 1)]]
  {
    hide Run, Step, Commit;
    var third := [SEMICOLON] + ([67, 65, 65, 67] + [67]);
    var second := [65, 65, 67, 65] + ([COMMA] + ([73, 65, 65, 73] + ([SEMICOLON] + third)));
    var bytes := [65, 65, 65, 65] + ([SEMICOLON] + second);
    assert bytes == [65, 65, 65, 65, 59] + [65, 65, 67, 65, 44] + [73, 65, 65, 73, 59, 59] + [67, 65, 65, 67, 67];
    var p, q, r := Seg4(0, 0, 0, 0), Seg4(0, 0, 1, 0), Seg4(4, 0, 1, 4);
    ExampleFirstLine(second);
    var s := START.(lines := [[p]]);
    ExampleSecondLine(s, third);
    var s' := s.(line := 1, sourceCol := 4, lines := [[p]] + [[q, r]]);
    ExampleLastLine(s');
    assert [[p]] + [[q, r]] + [[]] + [[Seg5(1, 0, 1, 5, 1)]] == [[p], [q, r], [], [Seg5(1, 0, 1, 5, 1)]];
  }

  lemma RunNothingMore(s: Scan, nsources: nat)
    ensures Run(s, [], nsources) == s
  {
  }
}
