/** The wrapper around a process stream's `write`: it passes every chunk on and also logs the
    text in complete lines, holding back an unfinished line in a bounded buffer. */
module LineBuffers {

  const MAX_STREAM_BUFFER_LENGTH := 1024 * 1024

  /** A piece of text handed to the console, and whether it was cut because the buffer was
      too long rather than at a line end. */
  datatype Piece = Piece(text: string, overflow: bool)

  /** The input that a piece accounts for: a cut at a line end swallows the line end. */
  function Covered(p: Piece): string {
    if p.overflow then p.text else p.text + "\n"
  }

  function AllCovered(ps: seq<Piece>): string {
    if ps == [] then "" else AllCovered(ps[..|ps| - 1]) + Covered(ps[|ps| - 1])
  }

  function Joined(chunks: seq<string>): string {
    if chunks == [] then "" else Joined(chunks[..|chunks| - 1]) + chunks[|chunks| - 1]
  }

  /** The last position of a character, or -1. */
  function LastIndexOf(s: string, c: char): (i: int)
    ensures -1 <= i < |s|
    ensures 0 <= i ==> s[i] == c
    ensures forall j :: i < j < |s| ==> s[j] != c
  {
    if s == "" then -1
    else if s[|s| - 1] == c then |s| - 1
    else LastIndexOf(s[..|s| - 1], c)
  }

  /** What follows the last line end. */
  function Unfinished(s: string): string {
    s[LastIndexOf(s, '\n') + 1..]
  }

  /** What a text has from position `i` on, which may lie past its end. */
  function Slice(s: string, i: nat): string {
    if i <= |s| then s[i..] else ""
  }

  predicate OneLine(s: string) {
    '\n' !in s
  }

  /** A text splits in one way only into something that is empty or ends in a line end, and
      something without one. */
  lemma SplitUnique(s: string, head: string, tail: string)
    requires s == head + tail && OneLine(tail)
    requires head == "" || head[|head| - 1] == '\n'
    ensures tail == Unfinished(s)
  {
    var i := LastIndexOf(s, '\n');
    if head != "" {
      assert s[|head| - 1] == '\n';
      assert i == |head| - 1 by {
        assert forall j :: |head| <= j < |s| ==> s[j] == tail[j - |head|];
      }
    } else {
      assert s == tail;
    }
  }

  predicate NoOverflow(ps: seq<Piece>) {
    forall i :: 0 <= i < |ps| ==> !ps[i].overflow
  }

  lemma CoveredEndsLine(ps: seq<Piece>)
    requires NoOverflow(ps)
    ensures var s := AllCovered(ps); s == "" || s[|s| - 1] == '\n'
  {
  }

  /** The text logged, one piece under the other as a console shows them. */
  function Shown(ps: seq<Piece>): string {
    if ps == [] then "" else Shown(ps[..|ps| - 1]) + ps[|ps| - 1].text + "\n"
  }

  lemma {:induction false} ShownIsCovered(ps: seq<Piece>)
    requires NoOverflow(ps)
    ensures Shown(ps) == AllCovered(ps)
    decreases |ps|
  {
    if ps != [] {
      ShownIsCovered(ps[..|ps| - 1]);
    }
  }

  class LineBuffer {
    var buf: string
    var logged: seq<Piece>       // what the console has been handed
    var forwarded: seq<string>   // the chunks passed on to the stream itself

    ghost predicate Valid()
      reads this
    {
      && OneLine(buf) && |buf| <= MAX_STREAM_BUFFER_LENGTH
      && AllCovered(logged) + buf == Joined(forwarded)
    }

    constructor ()
      ensures Valid() && buf == "" && logged == [] && forwarded == []
    {
      buf, logged, forwarded := "", [], [];
    }

    method Write(chunk: string)
      requires Valid()
      modifies this
      ensures Valid() && forwarded == old(forwarded) + [chunk]
      ensures old(logged) <= logged && |logged| <= |old(logged)| + 1
      // exactly when a piece is logged, and when it is cut short of a line end
      ensures |logged| == |old(logged)| <==>
        OneLine(chunk) && |old(buf)| + |chunk| <= MAX_STREAM_BUFFER_LENGTH
      ensures |logged| > |old(logged)| ==>
        (logged[|old(logged)|].overflow <==> |old(buf)| + |chunk| > MAX_STREAM_BUFFER_LENGTH)
      // too much: all of it is logged; a line end: everything up to the last one; else nothing
      ensures |old(buf)| + |chunk| > 1_048_576 ==>
        logged == old(logged) + [Piece(old(buf) + chunk, true)] && buf == ""
      ensures |old(buf)| + |chunk| <= 1_048_576 && '\n' !in chunk ==>
        logged == old(logged) && buf == old(buf) + chunk
      ensures |old(buf)| + |chunk| <= 1_048_576 && '\n' in chunk ==>
        && |logged| == |old(logged)| + 1 && !logged[|old(logged)|].overflow && '\n' !in buf
        && logged[|old(logged)|].text + "\n" + buf == old(buf) + chunk
    {
      hide AllCovered, Covered, Joined, LastIndexOf, OneLine, Slice;
      ghost var before, earlier, sent := buf, logged, forwarded;
      buf := buf + chunk;
      ghost var all := buf;
      var overflow := |buf| > MAX_STREAM_BUFFER_LENGTH;
      var eol := if overflow then |buf| else LastIndexOf(buf, '\n');
      LastOfBoth(before, chunk);
      if eol != -1 {
        ghost var p := Piece(buf[..eol], overflow);
        CutAt(buf, eol, overflow);
        logged := logged + [Piece(buf[..eol], overflow)];
        buf := Slice(buf, eol + 1);
        PieceLogged(earlier, p, buf, sent, before, chunk);
      } else {
        NothingLogged(earlier, sent, before, chunk);
      }
      forwarded := forwarded + [chunk];
    }
  }

  lemma LastOfBoth(before: string, chunk: string)
    requires OneLine(before)
    ensures LastIndexOf(before + chunk, '\n') == -1 <==> OneLine(chunk)
    ensures LastIndexOf(before + chunk, '\n') == -1 ==> OneLine(before + chunk)
    ensures OneLine(chunk) <==> '\n' !in chunk
  {
    var s, i := before + chunk, LastIndexOf(before + chunk, '\n');
    if i == -1 {
      assert forall j :: 0 <= j < |chunk| ==> chunk[j] == s[|before| + j];
    }
  }

  lemma CutAt(all: string, eol: int, overflow: bool)
    requires 0 <= eol <= |all|
    requires if overflow then eol == |all| else eol == LastIndexOf(all, '\n')
    ensures Covered(Piece(all[..eol], overflow)) + Slice(all, eol + 1) == all
    ensures OneLine(Slice(all, eol + 1)) && |Slice(all, eol + 1)| <= |all|
    ensures overflow ==> Slice(all, eol + 1) == "" && all[..eol] == all
    ensures !overflow ==> all[..eol] + "\n" + Slice(all, eol + 1) == all && '\n' !in Slice(all, eol + 1)
  {
  }

  lemma PieceLogged(logged: seq<Piece>, p: Piece, rest: string, sent: seq<string>, before: string, chunk: string)
    requires AllCovered(logged) + before == Joined(sent) && Covered(p) + rest == before + chunk
    ensures AllCovered(logged + [p]) + rest == Joined(sent + [chunk])
  {
    var a := AllCovered(logged);
    assert (logged + [p])[..|logged|] == logged && (sent + [chunk])[..|sent|] == sent;
    assert (a + Covered(p)) + rest == a + (Covered(p) + rest);
    assert a + (before + chunk) == (a + before) + chunk;
  }

  lemma NothingLogged(logged: seq<Piece>, sent: seq<string>, before: string, chunk: string)
    requires AllCovered(logged) + before == Joined(sent)
    ensures AllCovered(logged) + (before + chunk) == Joined(sent + [chunk])
  {
    var a := AllCovered(logged);
    assert (sent + [chunk])[..|sent|] == sent;
    assert a + (before + chunk) == (a + before) + chunk;
  }

  predicate FitsBeside(sent: seq<string>, chunk: string) {
    |Unfinished(Joined(sent))| + |chunk| <= MAX_STREAM_BUFFER_LENGTH
  }

  /** Whether the unfinished line before each chunk leaves room for that chunk. */
  predicate Fits(chunks: seq<string>) {
    chunks == [] ||
    (Fits(chunks[..|chunks| - 1]) && FitsBeside(chunks[..|chunks| - 1], chunks[|chunks| - 1]))
  }

  /** Runs a wrapper over a whole sequence of chunks. Nothing is cut short of a line end just
      when every chunk fits beside the unfinished line before it. */
  method WriteAll(chunks: seq<string>) returns (b: LineBuffer)
    ensures fresh(b) && b.Valid() && b.forwarded == chunks
    ensures NoOverflow(b.logged) <==> Fits(chunks)
  {
    hide *;
    assert chunks[..0] == [] && chunks[..|chunks|] == chunks;
    NothingYet();
    b := new LineBuffer();
    for n := 0 to |chunks|
      invariant b.Valid() && fresh(b) && b.forwarded == chunks[..n]
      invariant NoOverflow(b.logged) <==> Fits(chunks[..n])
    {
      ghost var before, sent := b.logged, chunks[..n];
      if NoOverflow(b.logged) {
        ChunksDoNotMatter(b);
      }
      b.Write(chunks[n]);
      assert chunks[..n + 1] == sent + [chunks[n]];
      FitsOneMore(sent, chunks[n]);
      OverflowSoFar(before, b.logged);
    }
  }

  lemma NothingYet()
    ensures NoOverflow([]) && Fits([])
  {
  }

  lemma FitsOneMore(sent: seq<string>, chunk: string)
    ensures Fits(sent + [chunk]) <==> Fits(sent) && FitsBeside(sent, chunk)
    ensures FitsBeside(sent, chunk) <==> |Unfinished(Joined(sent))| + |chunk| <= MAX_STREAM_BUFFER_LENGTH
  {
    assert (sent + [chunk])[..|sent|] == sent;
  }

  lemma OverflowSoFar(before: seq<Piece>, after: seq<Piece>)
    requires before <= after && |after| <= |before| + 1
    ensures NoOverflow(after) <==> NoOverflow(before) && (|after| > |before| ==> !after[|before|].overflow)
  {
    if |after| > |before| {
      assert after == before + [after[|before|]];
    } else {
      assert after == before;
    }
  }

  /** Without overflow, what is held back and what is shown depend on the text alone, not on
      how it was cut into chunks. */
  lemma ChunksDoNotMatter(b: LineBuffer)
    requires b.Valid() && NoOverflow(b.logged)
    ensures b.buf == Unfinished(Joined(b.forwarded))
    ensures Shown(b.logged) + b.buf == Joined(b.forwarded)
  {
    CoveredEndsLine(b.logged);
    SplitUnique(Joined(b.forwarded), AllCovered(b.logged), b.buf);
    ShownIsCovered(b.logged);
  }
}
