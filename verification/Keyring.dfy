/** Storing a sealed text in keyring entries of limited length: all chunks but the last
    end in a marker that says that more follows. */
module Keyring {

  const CONTINUE_MARKER := "<MORE>"

  datatype ReadResult = NoEntry | Text(sealed: string) | ReadError
  datatype StoreResult = Stored | StoreError

  predicate EndsWith(s: string, suffix: string) {
    |suffix| <= |s| && s[|s| - |suffix|..] == suffix
  }

  // ---------- what reading and storing compute ----------

  /** Joins the entries from index i on, up to the first without a marker. */
  function ReadFrom(ring: map<nat, string>, broken: set<nat>, i: nat): ReadResult
    decreases set k | k in ring && k >= i
  {
    if i in broken then ReadError
    else if i !in ring then NoEntry
    else if EndsWith(ring[i], CONTINUE_MARKER) then
      assert i in (set k | k in ring && k >= i) - (set k | k in ring && k >= i + 1);
      match ReadFrom(ring, broken, i + 1)
      case Text(rest) => Text(ring[i][..|ring[i]| - |CONTINUE_MARKER|] + rest)
      case other => other
    else Text(ring[i])
  }

  /** The entries of a text: a full chunk gets the marker, even when nothing follows. */
  function Chunks(sealed: string, step: nat): seq<string>
    requires step > 0
    decreases |sealed|
  {
    if sealed == "" then []
    else if step <= |sealed| then [sealed[..step] + CONTINUE_MARKER] + Chunks(sealed[step..], step)
    else [sealed]
  }

  lemma EmptyChunks(step: nat)
    requires step > 0
    ensures Chunks("", step) == []
  {
  }

  lemma NextChunk(sealed: string, step: nat)
    requires step > 0 && sealed != ""
    ensures step <= |sealed| ==>
      Chunks(sealed, step) == [sealed[..step] + CONTINUE_MARKER] + Chunks(sealed[step..], step)
    ensures step > |sealed| ==> Chunks(sealed, step) == [sealed]
  {
  }

  /** The ring after the chunks were written from entry i on; other entries stay. */
  function Overwrite(ring: map<nat, string>, i: nat, chunks: seq<string>): map<nat, string>
    decreases |chunks|
  {
    if chunks == [] then ring else Overwrite(ring[i := chunks[0]], i + 1, chunks[1..])
  }

  /** What the last chunk holds; empty if the text fills its chunks exactly. */
  function LastChunk(sealed: string, step: nat): string
    requires step > 0
  {
    sealed[|sealed| - |sealed| % step..]
  }

  lemma {:induction false} OverwriteAt(ring: map<nat, string>, i: nat, chunks: seq<string>, k: nat)
    ensures i <= k < i + |chunks| ==> k in Overwrite(ring, i, chunks) && Overwrite(ring, i, chunks)[k] == chunks[k - i]
    ensures !(i <= k < i + |chunks|) ==>
      (k in Overwrite(ring, i, chunks) <==> k in ring) && (k in ring ==> Overwrite(ring, i, chunks)[k] == ring[k])
    decreases |chunks|
  {
    if chunks != [] {
      OverwriteAt(ring[i := chunks[0]], i + 1, chunks[1..], k);
    }
  }

  lemma OverwriteNothing(ring: map<nat, string>, i: nat)
    ensures Overwrite(ring, i, []) == ring
  {
  }

  lemma {:induction false} OverwriteSnoc(ring: map<nat, string>, i: nat, chunks: seq<string>, chunk: string)
    ensures Overwrite(ring, i, chunks + [chunk]) == Overwrite(ring, i, chunks)[i + |chunks| := chunk]
    decreases |chunks|
  {
    if chunks == [] {
      assert ([] + [chunk])[1..] == [];
    } else {
      assert (chunks + [chunk])[1..] == chunks[1..] + [chunk];
      OverwriteSnoc(ring[i := chunks[0]], i + 1, chunks[1..], chunk);
    }
  }

  lemma NextMultiple(k: int, step: int)
    ensures (k + 1) * step == k * step + step
  {
  }

  lemma ModDown(n: int, step: int)
    requires 0 < step <= n
    ensures (n - step) % step == n % step
  {
    var m := n - step;
    assert m == m / step * step + m % step;
    NextMultiple(m / step, step);
    DivModUnique(n, step, m / step + 1, m % step);
  }

  lemma MultipleOf(a: int, step: int)
    requires step > 0
    ensures a >= 1 ==> a * step >= step
    ensures a <= -1 ==> a * step <= -step
  {
    if a >= 1 {
      assert (a - 1) * step >= 0;
    } else if a <= -1 {
      assert (-a - 1) * step >= 0;
      assert (-a - 1) * step == -(a * step) - step;
    }
  }

  lemma DivModUnique(n: int, step: int, q: int, r: int)
    requires step > 0 && n == q * step + r && 0 <= r < step
    ensures n / step == q && n % step == r
  {
    var q', r' := n / step, n % step;
    var d := q - q';
    assert n == q' * step + r';
    assert d * step == q * step - q' * step;
    MultipleOf(d, step);
  }

  lemma NoLastChunk(sealed: string, step: nat)
    requires step > 0
    ensures |sealed| < step ==> LastChunk(sealed, step) == sealed
  {
    if |sealed| < step {
      DivModUnique(|sealed|, step, 0, |sealed|);
    }
  }

  lemma LastChunkDown(sealed: string, step: nat)
    requires 0 < step <= |sealed|
    ensures LastChunk(sealed[step..], step) == LastChunk(sealed, step)
  {
    ModDown(|sealed|, step);
  }

  /** Every entry fits the limit, and only full ones carry the marker. */
  lemma {:induction false} ChunksFit(sealed: string, step: nat)
    requires step > 0
    ensures forall k :: 0 <= k < |Chunks(sealed, step)| ==> 0 < |Chunks(sealed, step)[k]| <= step + |CONTINUE_MARKER|
    decreases |sealed|
  {
    if step <= |sealed| {
      ChunksFit(sealed[step..], step);
    }
  }

  lemma MarkerStripped(s: string)
    ensures EndsWith(s + CONTINUE_MARKER, CONTINUE_MARKER)
    ensures (s + CONTINUE_MARKER)[..|s + CONTINUE_MARKER| - |CONTINUE_MARKER|] == s
  {
  }

  /** A full slice of the text from a on with the marker, or the rest of the text. */
  function ChunkFrom(sealed: string, step: nat, a: nat): string
    requires a <= |sealed|
  {
    if a + step <= |sealed| then sealed[a..a + step] + "<MORE>" else sealed[a..]
  }

  lemma ChunkShift(sealed: string, step: nat, a: nat)
    requires step + a <= |sealed|
    ensures ChunkFrom(sealed[step..], step, a) == ChunkFrom(sealed, step, step + a)
  {
    var rest := sealed[step..];
    if a + step <= |rest| {
      assert rest[a..a + step] == sealed[step + a..step + a + step];
    } else {
      assert rest[a..] == sealed[step + a..];
    }
  }

  lemma FirstChunk(sealed: string, step: nat)
    requires step > 0 && Chunks(sealed, step) != []
    ensures sealed != "" && Chunks(sealed, step)[0] == ChunkFrom(sealed, step, 0)
    ensures |Chunks(sealed, step)| > 1 ==>
      step <= |sealed| && Chunks(sealed, step)[1..] == Chunks(sealed[step..], step)
  {
    assert sealed[0..] == sealed && (step <= |sealed| ==> sealed[0..step] == sealed[..step]);
  }

  /** The k-th chunk starts where the chunks before it end. */
  lemma {:induction false} ChunkAt(sealed: string, step: nat, k: nat)
    requires step > 0 && k < |Chunks(sealed, step)|
    ensures k * step < |sealed| && Chunks(sealed, step)[k] == ChunkFrom(sealed, step, k * step)
    decreases k
  {
    hide Chunks, ChunkFrom;
    FirstChunk(sealed, step);
    if k > 0 {
      var rest := sealed[step..];
      assert Chunks(rest, step)[k - 1] == Chunks(sealed, step)[k];
      ChunkAt(rest, step, k - 1);
      NextMultiple(k - 1, step);
      ChunkShift(sealed, step, (k - 1) * step);
    }
  }

  /** There are just enough chunks to hold the text. */
  lemma {:induction false} ChunksCover(sealed: string, step: nat)
    requires step > 0
    ensures |sealed| <= |Chunks(sealed, step)| * step < |sealed| + step
    decreases |sealed|
  {
    if step <= |sealed| {
      ChunksCover(sealed[step..], step);
      NextMultiple(|Chunks(sealed[step..], step)|, step);
    }
  }

  // ---------- where reading stops ----------

  /** Reading goes past entry k: it is there and says that more follows. */
  predicate GoesOn(ring: map<nat, string>, broken: set<nat>, k: nat) {
    k !in broken && k in ring && EndsWith(ring[k], "<MORE>")
  }

  /** The texts of the entries from i to n, without their markers. */
  function Bodies(ring: map<nat, string>, i: nat, n: nat): string
    decreases n - i
  {
    if n <= i || i !in ring || |ring[i]| < 6 then "" else ring[i][..|ring[i]| - 6] + Bodies(ring, i + 1, n)
  }

  /** Reading stops at the first entry that fails, is missing, or says that nothing follows;
      which of the three it is decides the outcome. */
  lemma {:induction false} ReadOutcome(ring: map<nat, string>, broken: set<nat>, i: nat) returns (n: nat)
    ensures i <= n && !GoesOn(ring, broken, n) && forall k :: i <= k < n ==> GoesOn(ring, broken, k)
    ensures ReadFrom(ring, broken, i) ==
      if n in broken then ReadError else if n !in ring then NoEntry else Text(Bodies(ring, i, n) + ring[n])
    decreases set k | k in ring && k >= i
  {
    n := i;
    if GoesOn(ring, broken, i) {
      assert i in (set k | k in ring && k >= i) - (set k | k in ring && k >= i + 1);
      n := ReadOutcome(ring, broken, i + 1);
      if n !in broken && n in ring {
        assert ring[i][..|ring[i]| - 6] + (Bodies(ring, i + 1, n) + ring[n]) == Bodies(ring, i, n) + ring[n];
      }
    }
  }

  // ---------- round trip ----------

  /** The entries from i on hold the given chunks. */
  ghost predicate Holds(ring: map<nat, string>, i: nat, chunks: seq<string>) {
    forall k :: 0 <= k < |chunks| ==> HoldsAt(ring, i + k, chunks[k])
  }

  ghost predicate HoldsAt(ring: map<nat, string>, i: nat, chunk: string) {
    i in ring && ring[i] == chunk
  }

  lemma HoldsRest(ring: map<nat, string>, i: nat, chunks: seq<string>)
    requires Holds(ring, i, chunks) && chunks != []
    ensures HoldsAt(ring, i, chunks[0]) && Holds(ring, i + 1, chunks[1..])
  {
    assert HoldsAt(ring, i + 0, chunks[0]);
    forall k | 0 <= k < |chunks| - 1
      ensures HoldsAt(ring, i + 1 + k, chunks[1..][k])
    {
      assert HoldsAt(ring, i + (k + 1), chunks[k + 1]);
    }
  }

  /** Entries that hold the chunks of a text from i on are read back as that text. */
  lemma {:induction false} ReadsBack(ring: map<nat, string>, i: nat, sealed: string, step: nat)
    requires step > 0 && LastChunk(sealed, step) != "" && !EndsWith(LastChunk(sealed, step), CONTINUE_MARKER)
    requires Holds(ring, i, Chunks(sealed, step))
    ensures ReadFrom(ring, {}, i) == Text(sealed)
    decreases |sealed|
  {
    NoLastChunk(sealed, step);
    HoldsRest(ring, i, Chunks(sealed, step));
    if step <= |sealed| {
      LastChunkDown(sealed, step);
      MarkerStripped(sealed[..step]);
      hide EndsWith, LastChunk;
      assert Chunks(sealed, step)[1..] == Chunks(sealed[step..], step);
      ReadsBack(ring, i + 1, sealed[step..], step);
      assert sealed[..step] + sealed[step..] == sealed;
    }
  }

  /** Marked entries with nothing after them read as missing. */
  lemma {:induction false} MarkedToTheEnd(ring: map<nat, string>, i: nat, n: nat)
    requires i <= n && n !in ring
    requires forall k :: i <= k < n ==> k in ring && EndsWith(ring[k], CONTINUE_MARKER)
    ensures ReadFrom(ring, {}, i) == NoEntry
    decreases n - i
  {
    if i < n {
      MarkedToTheEnd(ring, i + 1, n);
    }
  }

  lemma {:induction false} AllMarked(sealed: string, step: nat, k: nat)
    requires step > 0 && k < |Chunks(sealed, step)|
    requires LastChunk(sealed, step) == "" || EndsWith(LastChunk(sealed, step), CONTINUE_MARKER)
    ensures EndsWith(Chunks(sealed, step)[k], CONTINUE_MARKER)
    decreases |sealed|
  {
    if step <= |sealed| {
      MarkerStripped(sealed[..step]);
      LastChunkDown(sealed, step);
      if k > 0 {
        AllMarked(sealed[step..], step, k - 1);
      }
    } else {
      NoLastChunk(sealed, step);
    }
  }

  ghost predicate AlwaysReadsBack(sealed: string, step: nat)
    requires step > 0
  {
    forall ring: map<nat, string> :: ReadFrom(Overwrite(ring, 0, Chunks(sealed, step)), {}, 0) == Text(sealed)
  }

  /** Storing a text and reading it gives the text back, whatever older entries there
      are, exactly when the text does not fill its chunks and its last chunk does not
      happen to end in the marker. */
  lemma RoundTrip(sealed: string, step: nat)
    requires step > 0
    ensures AlwaysReadsBack(sealed, step) <==>
      LastChunk(sealed, step) != "" && !EndsWith(LastChunk(sealed, step), CONTINUE_MARKER)
  {
    var chunks := Chunks(sealed, step);
    if LastChunk(sealed, step) != "" && !EndsWith(LastChunk(sealed, step), CONTINUE_MARKER) {
      forall ring: map<nat, string>
        ensures ReadFrom(Overwrite(ring, 0, chunks), {}, 0) == Text(sealed)
      {
        forall k | 0 <= k < |chunks|
          ensures HoldsAt(Overwrite(ring, 0, chunks), 0 + k, chunks[k])
        {
          OverwriteAt(ring, 0, chunks, k);
        }
        ReadsBack(Overwrite(ring, 0, chunks), 0, sealed, step);
      }
    } else {
      var bare: map<nat, string> := map[];
      OverwriteAt(bare, 0, chunks, |chunks|);
      forall k | 0 <= k < |chunks|
        ensures k in Overwrite(bare, 0, chunks) && EndsWith(Overwrite(bare, 0, chunks)[k], CONTINUE_MARKER)
      {
        OverwriteAt(bare, 0, chunks, k);
        AllMarked(sealed, step, k);
      }
      MarkedToTheEnd(Overwrite(bare, 0, chunks), 0, |chunks|);
    }
  }

  // ---------- the storage ----------

  class KeyringStorage {
    const limit: nat          // the longest entry the keyring takes
    var entries: seq<nat>     // the handles opened so far; the k-th opens entry k
    var ring: map<nat, string>
    const broken: set<nat>    // entries the keyring fails to read and write

    predicate Valid()
      reads this
    {
      |CONTINUE_MARKER| < limit && forall k :: 0 <= k < |entries| ==> entries[k] == k
    }

    constructor (limit: nat, ring: map<nat, string>, broken: set<nat>)
      requires |CONTINUE_MARKER| < limit
      ensures Valid() && this.limit == limit && this.ring == ring && this.broken == broken
    {
      this.limit, entries, this.ring, this.broken := limit, [], ring, broken;
    }

    /** The handle of entry i, opened now if it is the next one. */
    method GetNextEntry(i: nat) returns (entry: nat)
      requires Valid() && i <= |entries|
      modifies `entries
      ensures Valid() && entry == i < |entries| && old(entries) <= entries
    {
      if i == |entries| {
        entries := entries + [i];
      }
      entry := entries[i];
    }

    method Read() returns (result: ReadResult)
      requires Valid()
      modifies `entries
      ensures Valid() && result == ReadFrom(ring, broken, 0)
    {
      var str, i := "", 0;
      while true
        invariant Valid() && i <= |entries|
        invariant ReadFrom(ring, broken, 0) == match ReadFrom(ring, broken, i)
                                               case Text(rest) => Text(str + rest)
                                               case other => other
        decreases set k | k in ring && k >= i
      {
        var entry := GetNextEntry(i);
        if entry in broken {
          return ReadError;
        }
        if entry !in ring {
          return NoEntry;
        }
        var nextChunk := ring[entry];
        if EndsWith(nextChunk, CONTINUE_MARKER) {
          assert i in (set k | k in ring && k >= i) - (set k | k in ring && k >= i + 1);
          var part := nextChunk[..|nextChunk| - |CONTINUE_MARKER|];
          assert forall rest :: str + (part + rest) == str + part + rest;
          str := str + part;
          i := i + 1;
        } else {
          return Text(str + nextChunk);
        }
      }
    }

    /** Writes the text chunk by chunk; stops at the first entry that cannot be written. */
    method Store(sealed: string) returns (result: StoreResult)
      requires Valid()
      modifies `entries, `ring
      ensures Valid()
      ensures result == Stored <==> forall k :: 0 <= k < |Chunks(sealed, limit - |CONTINUE_MARKER|)| ==> k !in broken
      ensures result == Stored ==> ring == Overwrite(old(ring), 0, Chunks(sealed, limit - |CONTINUE_MARKER|))
      ensures result == StoreError ==> exists k: nat ::
        && k < |Chunks(sealed, limit - |CONTINUE_MARKER|)| && k in broken && (forall j :: 0 <= j < k ==> j !in broken)
        && ring == Overwrite(old(ring), 0, Chunks(sealed, limit - |CONTINUE_MARKER|)[..k])
    {
      hide LastChunk, EndsWith, ReadFrom, Chunks, Overwrite;
      OverwriteNothing(ring, 0);
      EmptyChunks(limit - |CONTINUE_MARKER|);
      var stepSize := limit - |CONTINUE_MARKER|;
      ghost var chunks := Chunks(sealed, stepSize);
      var i := 0;
      ghost var k := 0;
      assert sealed[0..] == sealed;
      while i < |sealed|
        invariant Valid() && i == k * stepSize && k <= |entries|
        invariant k <= |chunks| && if i <= |sealed| then chunks[k..] == Chunks(sealed[i..], stepSize) else k == |chunks|
        invariant ring == Overwrite(old(ring), 0, chunks[..k])
        invariant forall j :: 0 <= j < k ==> j !in broken
      {
        DivModUnique(i, stepSize, k, 0);
        NextMultiple(k, stepSize);
        NextChunk(sealed[i..], stepSize);
        var entry := GetNextEntry(i / stepSize);
        var cutoff := i + stepSize;
        var part := if cutoff <= |sealed| then sealed[i..cutoff] + CONTINUE_MARKER else sealed[i..];
        assert cutoff <= |sealed| ==>
          sealed[i..][..stepSize] == sealed[i..cutoff] && sealed[i..][stepSize..] == sealed[cutoff..];
        assert part == chunks[k..][0] == chunks[k];
        assert chunks[k..][1..] == chunks[k + 1..];
        OverwriteSnoc(old(ring), 0, chunks[..k], chunks[k]);
        assert chunks[..k + 1] == chunks[..k] + [chunks[k]];
        if entry in broken {
          return StoreError;
        }
        ring := ring[entry := part];
        i, k := cutoff, k + 1;
      }
      assert i <= |sealed| ==> sealed[i..] == "";
      assert k == |chunks| && chunks[..k] == chunks;
      return Stored;
    }
  }
}
