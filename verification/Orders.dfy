/** The order of the elements of a list. */
module Orders {

  /** x is in the list, and y is not before it. */
  ghost predicate Before<T>(l: seq<T>, x: T, y: T) {
    exists k :: 0 <= k <= |l| && Splits(l, k, x, y)
  }

  ghost predicate Splits<T>(l: seq<T>, k: nat, x: T, y: T)
    requires k <= |l|
  {
    x in l[..k] && y !in l[..k]
  }

  lemma BeforeAt<T>(l: seq<T>, x: T, y: T)
    ensures Before(l, x, y) <==> exists i :: 0 <= i < |l| && l[i] == x && y !in l[..i + 1]
  {
    if Before(l, x, y) {
      var k :| 0 <= k <= |l| && Splits(l, k, x, y);
      var i :| 0 <= i < k && l[i] == x;
      assert l[..i + 1] <= l[..k];
      assert forall j :: 0 <= j <= i ==> l[..i + 1][j] == l[..k][j];
      assert l[i] == x && y !in l[..i + 1];
    }
    if i :| 0 <= i < |l| && l[i] == x && y !in l[..i + 1] {
      assert l[..i + 1][i] == x;
      assert Splits(l, i + 1, x, y);
    }
  }

  /** What comes later does not change the order of what was there. */
  lemma BeforeLater<T>(l: seq<T>, more: seq<T>, x: T, y: T)
    requires l <= more && Before(l, x, y)
    ensures Before(more, x, y)
  {
    var k :| 0 <= k <= |l| && Splits(l, k, x, y);
    assert more[..k] == l[..k];
    assert Splits(more, k, x, y);
  }

  /** What is there now is before what is not there yet. */
  lemma BeforeNew<T>(l: seq<T>, more: seq<T>, x: T, y: T)
    requires l <= more && x in l && y !in l
    ensures Before(more, x, y)
  {
    assert more[..|l|] == l;
    assert Splits(more, |l|, x, y);
  }

  lemma BeforeIn<T>(l: seq<T>, x: T, y: T)
    requires Before(l, x, y)
    ensures x in l && x != y
  {
  }

  // ---------- first occurrences ----------

  /** `done`, and then the elements of l that are not among the ones before them. */
  function FirstsAfter<T(==)>(done: seq<T>, l: seq<T>): seq<T>
    decreases |l|
  {
    if l == [] then done else FirstsAfter(if l[0] in done then done else done + [l[0]], l[1..])
  }

  /** The elements of l, each where it occurs first. */
  function Firsts<T(==)>(l: seq<T>): seq<T> {
    FirstsAfter([], l)
  }

  lemma {:induction false} FirstsAfterConcat<T>(done: seq<T>, l: seq<T>, more: seq<T>)
    ensures FirstsAfter(done, l + more) == FirstsAfter(FirstsAfter(done, l), more)
    decreases |l|
  {
    if l == [] {
      assert l + more == more;
    } else {
      assert (l + more)[1..] == l[1..] + more;
      FirstsAfterConcat(if l[0] in done then done else done + [l[0]], l[1..], more);
    }
  }

  lemma FirstsConcat<T>(l: seq<T>, more: seq<T>)
    ensures Firsts(l + more) == FirstsAfter(Firsts(l), more)
  {
    FirstsAfterConcat([], l, more);
  }

  lemma FirstsPush<T>(done: seq<T>, x: T)
    ensures FirstsAfter(done, [x]) == if x in done then done else done + [x]
  {
    assert [x][1..] == [];
  }

  lemma {:induction false} FirstsMember<T>(l: seq<T>, x: T)
    ensures x in Firsts(l) <==> x in l
    decreases |l|
  {
    if l != [] {
      var less, last := l[..|l| - 1], l[|l| - 1];
      assert l == less + [last];
      FirstsMember(less, x);
      FirstsConcat(less, [last]);
      FirstsPush(Firsts(less), last);
    }
  }

  /** First occurrences: the same elements, none of them twice, in the order in which the
      list first names them. */
  lemma {:induction false} FirstsInOrder<T>(l: seq<T>)
    ensures forall x :: x in Firsts(l) <==> x in l
    ensures forall i, j :: 0 <= i < j < |Firsts(l)| ==> Before(l, Firsts(l)[i], Firsts(l)[j])
    decreases |l|
  {
    forall x
      ensures x in Firsts(l) <==> x in l
    {
      FirstsMember(l, x);
    }
    if l != [] {
      var less, x := l[..|l| - 1], l[|l| - 1];
      assert l == less + [x];
      FirstsInOrder(less);
      FirstsConcat(less, [x]);
      FirstsPush(Firsts(less), x);
      var f, g := Firsts(l), Firsts(less);
      assert f == g || f == g + [x];
      forall i, j | 0 <= i < j < |f|
        ensures Before(l, f[i], f[j])
      {
        FirstsMember(less, f[i]);
        FirstsMember(less, x);
        if j < |g| {
          BeforeLater(less, l, f[i], f[j]);
        } else {
          BeforeNew(less, l, f[i], x);
        }
      }
    }
  }

  lemma {:induction false} FirstsAfterGrows<T>(done: seq<T>, l: seq<T>)
    ensures done <= FirstsAfter(done, l)
    decreases |l|
  {
    if l != [] {
      FirstsAfterGrows(if l[0] in done then done else done + [l[0]], l[1..]);
    }
  }

  /** First occurrences keep the order of the list. */
  lemma FirstsKeepOrder<T>(l: seq<T>, x: T, y: T)
    requires Before(l, x, y)
    ensures Before(Firsts(l), x, y)
  {
    var k :| 0 <= k <= |l| && Splits(l, k, x, y);
    assert l == l[..k] + l[k..];
    FirstsConcat(l[..k], l[k..]);
    FirstsAfterGrows(Firsts(l[..k]), l[k..]);
    FirstsMember(l[..k], x);
    FirstsMember(l[..k], y);
    BeforeNew(Firsts(l[..k]), Firsts(l), x, y);
  }
}
