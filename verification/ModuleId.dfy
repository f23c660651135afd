/** The normalisation of module ids: 'a/../name' to 'name', etc. It rewrites the text of the
    id, one match at a time; what it computes is the path that a stack gives. */
module ModuleIds {

  // ---- ids and their segments

  function Init(s: seq<string>): seq<string>
    requires s != []
  {
    s[..|s| - 1]
  }

  function Last(s: seq<string>): string
    requires s != []
  {
    s[|s| - 1]
  }

  function AddChar(s: seq<string>, c: char): (t: seq<string>)
    requires s != []
    ensures t != []
  {
    if c == '/' then s + [""] else Init(s) + [Last(s) + [c]]
  }

  function Segments(id: string): (s: seq<string>)
    ensures s != []
  {
    if id == "" then [""] else AddChar(Segments(id[..|id| - 1]), id[|id| - 1])
  }

  function Slashed(a: string, b: string): string {
    a + "/" + b
  }

  function Join(s: seq<string>): string
    requires s != []
  {
    if |s| == 1 then s[0] else Slashed(Join(Init(s)), Last(s))
  }

  predicate NoSlash(seg: string) {
    '/' !in seg
  }

  lemma SegmentsSnoc(a: string, c: char)
    ensures Segments(a + [c]) == AddChar(Segments(a), c)
  {
    assert (a + [c])[..|a|] == a;
  }

  lemma AddCharApart(p: seq<string>, q: seq<string>, c: char)
    requires q != []
    ensures AddChar(p + q, c) == p + AddChar(q, c)
  {
  }

  /** A slash separates the segments before it from those after it. */
  lemma {:induction false} SegmentsApart(a: string, b: string)
    ensures Segments(Slashed(a, b)) == Segments(a) + Segments(b)
    decreases |b|
  {
    if b == "" {
      SegmentsSnoc(a, '/');
      assert Slashed(a, b) == a + ['/'];
    } else {
      var b', c := b[..|b| - 1], b[|b| - 1];
      SegmentsApart(a, b');
      SegmentsSnoc(Slashed(a, b'), c);
      assert Slashed(a, b) == Slashed(a, b') + [c];
      AddCharApart(Segments(a), Segments(b'), c);
    }
  }

  lemma {:induction false} OneSegment(seg: string)
    requires NoSlash(seg)
    ensures Segments(seg) == [seg]
    decreases |seg|
  {
    if seg != "" {
      OneSegment(seg[..|seg| - 1]);
      assert seg == seg[..|seg| - 1] + [seg[|seg| - 1]];
    }
  }

  lemma JoinAddChar(s: seq<string>, c: char)
    requires s != []
    ensures Join(AddChar(s, c)) == Join(s) + [c]
  {
    assert Init(s + [""]) == s;
    if c != '/' && |s| > 1 {
      assert Init(AddChar(s, c)) == Init(s);
    }
  }

  lemma AddCharNoSlash(s: seq<string>, c: char)
    requires s != [] && forall seg :: seg in s ==> NoSlash(seg)
    ensures forall seg :: seg in AddChar(s, c) ==> NoSlash(seg)
  {
    assert NoSlash(Last(s));
  }

  lemma {:induction false} JoinSegments(id: string)
    ensures Join(Segments(id)) == id
    ensures forall seg :: seg in Segments(id) ==> NoSlash(seg)
    decreases |id|
  {
    if id != "" {
      JoinSegments(id[..|id| - 1]);
      JoinAddChar(Segments(id[..|id| - 1]), id[|id| - 1]);
      AddCharNoSlash(Segments(id[..|id| - 1]), id[|id| - 1]);
      assert id == id[..|id| - 1] + [id[|id| - 1]];
    }
  }

  lemma {:induction false} SegmentsJoin(s: seq<string>)
    requires s != [] && forall seg :: seg in s ==> NoSlash(seg)
    ensures Segments(Join(s)) == s
    decreases |s|
  {
    OneSegment(Last(s));
    if |s| > 1 {
      SegmentsJoin(Init(s));
      SegmentsApart(Join(Init(s)), Last(s));
    }
  }

  lemma {:induction false} JoinApart(p: seq<string>, q: seq<string>)
    requires p != [] && q != []
    ensures Join(p + q) == Slashed(Join(p), Join(q))
    decreases |q|
  {
    assert Init(p + q) == p + Init(q);
    if |q| == 1 {
      assert p + Init(q) == p;
    } else {
      JoinApart(p, Init(q));
    }
  }

  // ---- what an id denotes

  /** A segment that a following ".." cancels; an empty one is not, and stays. */
  predicate Named(seg: string) {
    seg != "" && seg != "." && seg != ".."
  }

  function Push(stack: seq<string>, seg: string): seq<string> {
    if seg == "." then stack
    else if seg == ".." && stack != [] && Named(stack[|stack| - 1]) then stack[..|stack| - 1]
    else stack + [seg]
  }

  function PushAll(stack: seq<string>, s: seq<string>): seq<string>
    decreases |s|
  {
    if s == [] then stack else PushAll(Push(stack, s[0]), s[1..])
  }

  /** The path evaluated on a stack; the last segment names a file and is kept as it is. */
  function Evaluated(s: seq<string>): (e: seq<string>)
    requires s != []
    ensures e != []
  {
    PushAll([], Init(s)) + [Last(s)]
  }

  /** What the segments do: a name goes on the stack, and ".." takes it off again; "." does
      nothing; ".." stays when there is no name to cancel. */
  lemma PushLaws(stack: seq<string>, x: string)
    requires x !in {"", ".", ".."}
    ensures PushAll(stack, [x]) == stack + [x] && PushAll(stack, ["."]) == stack
    ensures PushAll(stack, [""]) == stack + [""] && PushAll(stack, [x, ".."]) == stack
    ensures PushAll([], [".."]) == [".."] && PushAll(stack + [".."], [".."]) == stack + ["..", ".."]
    ensures PushAll(stack + [""], [".."]) == stack + ["", ".."]
  {
    OnePush(stack, x);
    OnePush(stack, ".");
    OnePush(stack, "");
    OnePush([], "..");
    OnePush(stack + [".."], "..");
    OnePush(stack + [""], "..");
    OnePush(stack + [x], "..");
    PushApart(stack, [x], [".."]);
    assert [x] + [".."] == [x, ".."];
    assert stack + [".."] + [".."] == stack + ["..", ".."] && stack + [""] + [".."] == stack + ["", ".."];
  }

  lemma OnePush(stack: seq<string>, seg: string)
    ensures PushAll(stack, [seg]) == Push(stack, seg)
  {
    assert [seg][1..] == [];
    assert PushAll(stack, [seg]) == PushAll(Push(stack, seg), []);
  }

  lemma TwoPushes(a: string, b: string)
    ensures PushAll([], [a, b]) == Push(Push([], a), b)
  {
    PushApart([], [a], [b]);
    OnePush([], a);
    OnePush(Push([], a), b);
    assert [a] + [b] == [a, b];
  }

  lemma JoinThree(a: string, b: string, c: string)
    ensures Join([a, b, c]) == a + "/" + b + "/" + c
  {
    assert Init([a, b, c]) == [a, b];
    JoinTwo(a, b);
  }

  lemma JoinTwo(a: string, b: string)
    ensures Join([a, b]) == a + "/" + b
  {
    assert Init([a, b]) == [a];
  }

  lemma ThreeSegments(a: string, b: string, c: string)
    requires NoSlash(a) && NoSlash(b) && NoSlash(c)
    ensures Evaluated(Segments(a + "/" + b + "/" + c)) == Push(Push([], a), b) + [c]
  {
    hide Segments, Join, PushAll;
    JoinThree(a, b, c);
    SegmentsJoin([a, b, c]);
    TwoPushes(a, b);
    assert Init([a, b, c]) == [a, b];
  }

  /** Three ids as they are written, and what normalising makes of them. */
  lemma Examples()
    ensures Join(Evaluated(Segments("a/../name"))) == "name"
    ensures Join(Evaluated(Segments("./a/name"))) == "a/name"
    ensures Join(Evaluated(Segments("../../name"))) == "../../name"
  {
    hide Segments, Join, Evaluated;
    ThreeSegments("a", "..", "name");
    ThreeSegments(".", "a", "name");
    ThreeSegments("..", "..", "name");
    assert "a" + "/" + ".." + "/" + "name" == "a/../name";
    assert "." + "/" + "a" + "/" + "name" == "./a/name";
    assert ".." + "/" + ".." + "/" + "name" == "../../name";
    JoinOfOne("name");
    JoinTwo("a", "name");
    JoinThree("..", "..", "name");
    assert Push(Push([], "a"), "..") + ["name"] == ["name"];
    assert Push(Push([], "."), "a") + ["name"] == ["a", "name"];
    assert Push(Push([], ".."), "..") + ["name"] == ["..", "..", "name"];
  }

  lemma JoinOfOne(seg: string)
    ensures Join([seg]) == seg
  {
  }

  lemma {:induction false} PushApart(stack: seq<string>, p: seq<string>, q: seq<string>)
    ensures PushAll(stack, p + q) == PushAll(PushAll(stack, p), q)
    decreases |p|
  {
    if p == [] {
      assert p + q == q;
    } else {
      PushApart(Push(stack, p[0]), p[1..], q);
      assert (p + q)[1..] == p[1..] + q;
    }
  }

  /** Segments that put nothing on the stack and take nothing off it. */
  ghost predicate Void(m: seq<string>) {
    m == ["."] || (|m| == 2 && Named(m[0]) && m[1] == "..")
  }

  lemma VoidIsVoid(stack: seq<string>, m: seq<string>)
    requires Void(m)
    ensures PushAll(stack, m) == stack
  {
    if |m| == 2 {
      assert m[1..] == [".."] && (stack + [m[0]])[..|stack|] == stack;
      assert PushAll(Push(stack, m[0]), [".."]) == PushAll(Push(Push(stack, m[0]), ".."), []);
    } else {
      assert m[1..] == [];
    }
  }

  /** Such segments may go from any place before the last segment. */
  lemma DropVoid(p: seq<string>, m: seq<string>, q: seq<string>)
    requires Void(m) && q != []
    ensures Evaluated(p + m + q) == Evaluated(p + q)
  {
    var q' := Init(q);
    assert Init(p + m + q) == p + m + q' && Init(p + q) == p + q';
    PushApart([], p + m, q');
    PushApart([], p, m);
    PushApart([], p, q');
    VoidIsVoid(PushAll([], p), m);
  }

  lemma DropFront(m: seq<string>, q: seq<string>)
    requires Void(m) && q != []
    ensures Evaluated(m + q) == Evaluated(q)
  {
    DropVoid([], m, q);
    assert [] + m + q == m + q && [] + q == q;
  }

  // ---- ids in normal form

  /** No "." is left but as the last segment, and no ".." that could be cancelled. */
  ghost predicate Normal(s: seq<string>) {
    && (forall j :: 0 <= j < |s| - 1 ==> s[j] != ".")
    && (forall j :: 0 < j < |s| - 1 && s[j] == ".." ==> !Named(s[j - 1]))
  }

  lemma {:induction false} NormalPushed(s: seq<string>, k: nat)
    requires Normal(s) && k < |s|
    ensures PushAll([], s[..k]) == s[..k]
    decreases k
  {
    if k > 0 {
      NormalPushed(s, k - 1);
      assert s[..k] == s[..k - 1] + [s[k - 1]];
      PushApart([], s[..k - 1], [s[k - 1]]);
      assert PushAll(s[..k - 1], [s[k - 1]]) == PushAll(Push(s[..k - 1], s[k - 1]), []);
    }
  }

  lemma NormalEvaluated(s: seq<string>)
    requires s != [] && Normal(s)
    ensures Evaluated(s) == s
  {
    NormalPushed(s, |s| - 1);
  }

  /** A stack holds no "." and no ".." that could be cancelled. */
  ghost predicate Settled(stack: seq<string>) {
    && (forall j :: 0 <= j < |stack| ==> stack[j] != ".")
    && (forall j :: 0 < j < |stack| && stack[j] == ".." ==> !Named(stack[j - 1]))
  }

  lemma {:induction false} PushSettled(stack: seq<string>, s: seq<string>)
    requires Settled(stack)
    ensures Settled(PushAll(stack, s))
    ensures forall x :: x in PushAll(stack, s) ==> x in stack || x in s
    decreases |s|
  {
    if s != [] {
      PushSettled(Push(stack, s[0]), s[1..]);
    }
  }

  /** Evaluation reaches a normal form, and a normal form is its own evaluation. */
  lemma EvaluatedNormal(s: seq<string>)
    requires s != []
    ensures Normal(Evaluated(s)) && Evaluated(Evaluated(s)) == Evaluated(s)
    ensures forall x :: x in Evaluated(s) ==> x in s
  {
    PushSettled([], Init(s));
    NormalEvaluated(Evaluated(s));
  }

  /** The normal form denotes the path that the id denotes, its last segment included. */
  lemma SamePath(s: seq<string>)
    requires s != []
    ensures PushAll([], Evaluated(s)) == PushAll([], s)
  {
    var e := Evaluated(s);
    EvaluatedNormal(s);
    NormalPushed(e, |e| - 1);
    assert s == Init(s) + [Last(s)] && e == Init(e) + [Last(s)];
    PushApart([], Init(s), [Last(s)]);
    PushApart([], Init(e), [Last(s)]);
  }

  /** Without empty segments, what is left of ".." is a run at the front, and maybe the last
      segment. */
  lemma LeadingRun(s: seq<string>) returns (k: nat)
    requires s != [] && Normal(s) && "" !in s
    ensures k < |s| && forall j :: 0 <= j < |s| - 1 ==> (s[j] == ".." <==> j < k)
  {
    k := 0;
    while k < |s| - 1 && s[k] == ".."
      invariant k < |s| && forall j :: 0 <= j < k ==> s[j] == ".."
    {
      k := k + 1;
    }
    for n := k to |s| - 1
      invariant forall j :: k <= j < n ==> s[j] != ".."
    {
      if n > k {
        assert s[n - 1] in s && Named(s[n - 1]);
      }
    }
  }

  // ---- the patterns

  predicate DotAt(r: string, i: int) {
    0 <= i && i + 3 <= |r| && r[i..i + 3] == "/./"
  }

  /** Where the segment that begins at `i` ends. */
  function SegmentEnd(r: string, i: nat): (k: nat)
    requires i <= |r|
    ensures i <= k <= |r| && NoSlash(r[i..k]) && (k < |r| ==> r[k] == '/')
    decreases |r| - i
  {
    if i < |r| && r[i] != '/' then
      var k := SegmentEnd(r, i + 1);
      assert r[i..k] == [r[i]] + r[i + 1..k];
      k
    else i
  }

  /** At `i` begins a segment other than "" and "..", and "/../" follows it. */
  predicate PairFrom(r: string, i: int) {
    && 0 <= i <= |r|
    && var k := SegmentEnd(r, i);
      && r[i..k] != "" && r[i..k] != ".."
      && k + 4 <= |r| && r[k..k + 4] == "/../"
  }

  predicate PairAt(r: string, i: int) {
    0 <= i < |r| && r[i] == '/' && PairFrom(r, i + 1)
  }

  /** The leftmost match of a pattern from `from` on, or -1. */
  function Find(r: string, pattern: (string, int) -> bool, from: nat): (i: int)
    ensures -1 <= i <= |r| && (i >= 0 ==> pattern(r, i) && forall j :: from <= j < i ==> !pattern(r, j))
    ensures i == -1 ==> forall j :: from <= j <= |r| ==> !pattern(r, j)
    decreases |r| - from
  {
    if from > |r| then -1
    else if pattern(r, from) then from
    else Find(r, pattern, from + 1)
  }

  // ---- matches and segments

  lemma DotMatched(r: string, i: int)
    requires DotAt(r, i)
    ensures Segments(r) == Segments(r[..i]) + (["."] + Segments(r[i + 3..]))
  {
    hide Segments;
    var a, b := r[..i], r[i + 3..];
    assert r[i] == r[i..i + 3][0] && r[i + 1] == r[i..i + 3][1] && r[i + 2] == r[i..i + 3][2];
    assert r == Slashed(a, Slashed(".", b));
    SegmentsApart(a, Slashed(".", b));
    SegmentsApart(".", b);
    OneSegment(".");
  }

  lemma PairMatched(r: string, i: int)
    requires PairFrom(r, i)
    ensures var k := SegmentEnd(r, i); Segments(r[i..]) == [r[i..k], ".."] + Segments(r[k + 4..])
  {
    hide Segments, SegmentEnd;
    var k := SegmentEnd(r, i);
    var seg, b := r[i..k], r[k + 4..];
    assert r[i..] == seg + (r[k..k + 4] + b);
    assert seg + ("/../" + b) == Slashed(seg, Slashed("..", b));
    SegmentsApart(seg, Slashed("..", b));
    SegmentsApart("..", b);
    OneSegment("..");
    OneSegment(seg);
  }

  lemma Interior(r: string, i: int)
    requires 0 <= i < |r| && r[i] == '/'
    ensures Segments(r) == Segments(r[..i]) + Segments(r[i + 1..])
  {
    assert r == Slashed(r[..i], r[i + 1..]);
    SegmentsApart(r[..i], r[i + 1..]);
  }

  /** Where segment `j` begins. */
  function Start(s: seq<string>, j: nat): nat
    requires j < |s|
  {
    if j == 0 then 0 else |Join(s[..j])| + 1
  }

  lemma Located(s: seq<string>, j: nat)
    requires j < |s|
    ensures var r, i := Join(s), Start(s, j);
      i <= |r| && r[i..] == Join(s[j..]) && (j > 0 ==> r[i - 1] == '/')
  {
    assert s == s[..j] + s[j..];
    if j > 0 {
      JoinApart(s[..j], s[j..]);
    }
  }

  /** A "." between other segments is found. */
  lemma DotFound(r: string, j: nat)
    requires 0 < j < |Segments(r)| - 1 && Segments(r)[j] == "."
    ensures 0 <= Start(Segments(r), j) - 1 && DotAt(r, Start(Segments(r), j) - 1)
  {
    hide Segments, Join;
    var s := Segments(r);
    JoinSegments(r);
    Located(s, j);
    var i, rest := Start(s, j), s[j + 1..];
    assert s[j..] == ["."] + rest;
    JoinApart(["."], rest);
    JoinOne(".");
    assert r[i..] == "./" + Join(rest);
    assert r[i..][..2] == "./";
    assert r[i - 1..i + 2] == [r[i - 1]] + r[i..][..2];
  }

  lemma JoinOne(seg: string)
    ensures Join([seg]) == seg
  {
  }

  lemma NoSlashAt(r: string, i: nat, k: nat)
    requires i <= k <= |r| && NoSlash(r[i..k])
    ensures forall j :: i <= j < k ==> r[j] != '/'
  {
    forall j | i <= j < k
      ensures r[j] != '/'
    {
      assert r[i..k][j - i] == r[j];
    }
  }

  lemma EndUnique(r: string, i: nat, k: nat)
    requires i <= k < |r| && NoSlash(r[i..k]) && r[k] == '/'
    ensures SegmentEnd(r, i) == k
  {
    hide SegmentEnd, NoSlash;
    NoSlashAt(r, i, k);
    NoSlashAt(r, i, SegmentEnd(r, i));
  }

  lemma PairHere(r: string, i: nat, seg: string, rest: string)
    requires i <= |r| && r[i..] == seg + "/../" + rest && NoSlash(seg) && seg != "" && seg != ".."
    ensures PairFrom(r, i)
  {
    hide SegmentEnd;
    var k := i + |seg|;
    assert r[i..k] == r[i..][..|seg|] == seg;
    assert r[k..k + 4] == r[i..][|seg|..|seg| + 4] == "/../";
    assert r[k] == r[k..k + 4][0];
    EndUnique(r, i, k);
  }

  /** A segment before ".." is found, unless ".." is last. */
  lemma PairFound(r: string, j: nat)
    requires j + 2 < |Segments(r)| && Segments(r)[j + 1] == ".."
    requires Segments(r)[j] != "" && Segments(r)[j] != ".."
    ensures PairFrom(r, Start(Segments(r), j))
    ensures j > 0 ==> PairAt(r, Start(Segments(r), j) - 1)
  {
    hide Segments, Join, SegmentEnd, NoSlash, PairFrom;
    var s := Segments(r);
    var seg, rest := s[j], s[j + 2..];
    JoinSegments(r);
    Located(s, j);
    var i := Start(s, j);
    assert s[j..] == [seg] + ([".."] + rest);
    JoinApart([seg], [".."] + rest);
    JoinApart([".."], rest);
    JoinOne(seg);
    JoinOne("..");
    assert r[i..] == seg + "/../" + Join(rest);
    assert seg in s;
    PairHere(r, i, seg, Join(rest));
  }

  // ---- the algorithm

  /** Rewrites the id until no pattern matches. The last replacement is made once only. */
  method NormalizeModuleId(moduleId: string) returns (r: string)
    ensures r == Join(Evaluated(Segments(moduleId)))
  {
    hide Segments, Join, Evaluated, SegmentEnd, Undotted, Normal, Find, PairFrom, PairAt, DotAt;
    ghost var goal := Evaluated(Segments(moduleId));
    r := moduleId;
    var i := Find(r, DotAt, 0);
    while i >= 0
      invariant Evaluated(Segments(r)) == goal
      invariant -1 <= i && (i >= 0 ==> DotAt(r, i))
      invariant i == -1 ==> forall j :: 0 <= j <= |r| ==> !DotAt(r, j)
      decreases |r|
    {
      DotGone(r, i);
      r := r[..i] + "/" + r[i + 3..];
      i := Find(r, DotAt, 0);
    }
    NoDots(r);
    LeadingDotGone(r);
    if |r| >= 2 && r[..2] == "./" {
      r := r[2..];
    }
    i := Find(r, PairAt, 0);
    while i >= 0
      invariant Evaluated(Segments(r)) == goal && Undotted(Segments(r))
      invariant -1 <= i && (i >= 0 ==> PairAt(r, i))
      invariant i == -1 ==> forall j :: 0 <= j <= |r| ==> !PairAt(r, j)
      decreases |r|
    {
      PairGone(r, i);
      var k := SegmentEnd(r, i + 1);
      r := r[..i] + "/" + r[k + 4..];
      i := Find(r, PairAt, 0);
    }
    LeadingPairGone(r);
    if PairFrom(r, 0) {
      r := r[SegmentEnd(r, 0) + 4..];
    }
    NormalEvaluated(Segments(r));
    JoinSegments(r);
  }

  ghost predicate Undotted(s: seq<string>) {
    forall j :: 0 <= j < |s| - 1 ==> s[j] != "."
  }

  lemma DotGone(r: string, i: int)
    requires DotAt(r, i)
    ensures i + 3 <= |r|
    ensures Evaluated(Segments(Slashed(r[..i], r[i + 3..]))) == Evaluated(Segments(r))
  {
    hide Segments, Evaluated;
    var p, q := Segments(r[..i]), Segments(r[i + 3..]);
    DotMatched(r, i);
    SegmentsApart(r[..i], r[i + 3..]);
    assert p + (["."] + q) == p + ["."] + q;
    DropVoid(p, ["."], q);
  }

  /** When no "/./" is left, "." can only be the first or the last segment. */
  lemma NoDots(r: string)
    requires forall i :: 0 <= i <= |r| ==> !DotAt(r, i)
    ensures forall j :: 0 < j < |Segments(r)| - 1 ==> Segments(r)[j] != "."
  {
    forall j: nat | 0 < j < |Segments(r)| - 1
      ensures Segments(r)[j] != "."
    {
      if Segments(r)[j] == "." {
        DotFound(r, j);
      }
    }
  }

  lemma LeadingDotFound(r: string)
    requires |Segments(r)| > 1 && Segments(r)[0] == "."
    ensures |r| >= 2 && r[..2] == "./"
  {
    hide Segments, Join;
    var s := Segments(r);
    JoinSegments(r);
    assert s == ["."] + s[1..];
    JoinApart(["."], s[1..]);
    JoinOne(".");
    assert r == "./" + Join(s[1..]);
  }

  lemma LeadingDotGone(r: string)
    requires forall j :: 0 < j < |Segments(r)| - 1 ==> Segments(r)[j] != "."
    ensures |r| >= 2 && r[..2] == "./" ==>
      Evaluated(Segments(r[2..])) == Evaluated(Segments(r)) && Undotted(Segments(r[2..]))
    ensures !(|r| >= 2 && r[..2] == "./") ==> Undotted(Segments(r))
  {
    hide Segments, Evaluated, Join;
    var s := Segments(r);
    if |r| >= 2 && r[..2] == "./" {
      var b := r[2..];
      assert r == r[..2] + b;
      assert r == Slashed(".", b);
      SegmentsApart(".", b);
      OneSegment(".");
      DropFront(["."], Segments(b));
      assert forall j :: 0 <= j < |Segments(b)| ==> Segments(b)[j] == s[j + 1];
    } else if |s| > 1 && s[0] == "." {
      LeadingDotFound(r);
    }
  }

  lemma PairNamed(r: string, i: int)
    requires PairFrom(r, i) && Undotted(Segments(r[i..]))
    ensures Named(r[i..SegmentEnd(r, i)])
  {
    hide Segments, SegmentEnd;
    PairMatched(r, i);
    assert Segments(r[i..])[0] == r[i..SegmentEnd(r, i)];
  }

  lemma PairGone(r: string, i: int)
    requires PairAt(r, i) && Undotted(Segments(r))
    ensures i < SegmentEnd(r, i + 1) <= |r| - 4
    ensures var r' := Slashed(r[..i], r[SegmentEnd(r, i + 1) + 4..]);
      Evaluated(Segments(r')) == Evaluated(Segments(r)) && Undotted(Segments(r'))
  {
    hide Segments, SegmentEnd, Evaluated;
    var k := SegmentEnd(r, i + 1);
    var p, m, q := Segments(r[..i]), [r[i + 1..k], ".."], Segments(r[k + 4..]);
    Interior(r, i);
    PairMatched(r, i + 1);
    assert Segments(r) == p + (m + q) == p + m + q;
    assert Segments(r[i + 1..]) == Segments(r)[|p|..];
    PairNamed(r, i + 1);
    DropVoid(p, m, q);
    SegmentsApart(r[..i], r[k + 4..]);
    StillUndotted(p, m, q);
  }

  lemma StillUndotted(p: seq<string>, m: seq<string>, q: seq<string>)
    requires Undotted(p + m + q) && q != []
    ensures Undotted(p + q)
  {
    var s := p + m + q;
    assert forall j :: 0 <= j < |p| ==> (p + q)[j] == s[j];
    assert forall j :: |p| <= j < |p + q| ==> (p + q)[j] == s[j + |m|];
  }

  /** When no interior match is left, at most the first two segments still cancel; one
      replacement at the front then suffices. */
  lemma LeadingPairGone(r: string)
    requires Undotted(Segments(r))
    requires forall i :: 0 <= i <= |r| ==> !PairAt(r, i)
    ensures PairFrom(r, 0) ==> SegmentEnd(r, 0) + 4 <= |r|
    ensures PairFrom(r, 0) ==>
      var q := Segments(r[SegmentEnd(r, 0) + 4..]);
      Evaluated(q) == Evaluated(Segments(r)) && Normal(q)
    ensures !PairFrom(r, 0) ==> Normal(Segments(r))
  {
    InteriorKept(r);
    if PairFrom(r, 0) {
      FrontGone(r);
    } else {
      FrontKept(r);
    }
  }

  /** No segment but the first is cancelled by the ".." after it. */
  ghost predicate Interiorly(s: seq<string>) {
    forall j :: 0 < j < |s| - 2 && s[j + 1] == ".." ==> !Named(s[j])
  }

  lemma InteriorKept(r: string)
    requires forall i :: 0 <= i <= |r| ==> !PairAt(r, i)
    ensures Interiorly(Segments(r))
  {
    hide Segments, Start, PairAt;
    var s := Segments(r);
    forall j: nat | 0 < j < |s| - 2 && s[j + 1] == ".."
      ensures !Named(s[j])
    {
      if Named(s[j]) {
        PairFound(r, j);
        InRange(r, Start(s, j) - 1);
      }
    }
  }

  lemma InRange(r: string, i: int)
    requires PairAt(r, i)
    ensures 0 <= i <= |r|
  {
  }

  lemma FrontGone(r: string)
    requires Undotted(Segments(r)) && Interiorly(Segments(r)) && PairFrom(r, 0)
    ensures SegmentEnd(r, 0) + 4 <= |r|
    ensures var q := Segments(r[SegmentEnd(r, 0) + 4..]); Evaluated(q) == Evaluated(Segments(r)) && Normal(q)
  {
    hide Segments, SegmentEnd, Evaluated, Normal, Undotted, Interiorly;
    var s, k := Segments(r), SegmentEnd(r, 0);
    var m, q := [r[0..k], ".."], Segments(r[k + 4..]);
    assert r[0..] == r;
    PairMatched(r, 0);
    PairNamed(r, 0);
    DropFront(m, q);
    NormalTail(s, m, q);
  }

  lemma FrontKept(r: string)
    requires Undotted(Segments(r)) && Interiorly(Segments(r)) && !PairFrom(r, 0)
    ensures Normal(Segments(r))
  {
    hide Segments, SegmentEnd, PairFrom;
    var s := Segments(r);
    if |s| > 2 && s[1] == ".." && Named(s[0]) {
      PairFound(r, 0);
    }
    NormalFrom(s);
  }

  lemma NormalTail(s: seq<string>, m: seq<string>, q: seq<string>)
    requires Undotted(s) && Interiorly(s) && s == m + q && |m| == 2 && m[1] == ".."
    ensures Normal(q)
  {
    assert forall j :: 0 <= j < |q| ==> q[j] == s[j + 2];
    forall j | 0 < j < |q| - 1 && q[j] == ".."
      ensures !Named(q[j - 1])
    {
      assert s[j + 1 + 1] == ".." && q[j - 1] == s[j + 1];
    }
  }

  lemma NormalFrom(s: seq<string>)
    requires Undotted(s)
    requires forall j :: 0 <= j < |s| - 2 && s[j + 1] == ".." ==> !Named(s[j])
    ensures Normal(s)
  {
    forall j | 0 < j < |s| - 1 && s[j] == ".."
      ensures !Named(s[j - 1])
    {
      assert s[(j - 1) + 1] == "..";
    }
  }

  /** What the rewriting computes is in normal form, and computing it again changes nothing. */
  lemma NormalizedTwice(id: string)
    ensures var r := Join(Evaluated(Segments(id)));
      && Segments(r) == Evaluated(Segments(id)) && Normal(Segments(r))
      && Join(Evaluated(Segments(r))) == r
  {
    var s := Segments(id);
    JoinSegments(id);
    EvaluatedNormal(s);
    SegmentsJoin(Evaluated(s));
  }
}
