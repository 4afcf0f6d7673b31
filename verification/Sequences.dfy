/** Sequences of distinct elements, and sequences with elements left out. */
module Sequences {

  ghost predicate Distinct<T>(s: seq<T>) {
    forall j, k :: 0 <= j < k < |s| ==> s[j] != s[k]
  }

  /** `s` without its element `k`. */
  ghost function Drop<T>(s: seq<T>, k: nat): seq<T>
    requires k < |s|
  {
    s[..k] + s[k + 1..]
  }

  /** `a` is `b` in the same order with some elements left out. */
  ghost predicate Thinned<T>(a: seq<T>, b: seq<T>) {
    if b == [] then a == []
    else (a != [] && a[0] == b[0] && Thinned(a[1..], b[1..])) || Thinned(a, b[1..])
  }

  lemma {:induction false} ThinnedSelf<T>(a: seq<T>)
    ensures Thinned(a, a)
  {
    if a != [] {
      ThinnedSelf(a[1..]);
    }
  }

  lemma {:induction false} ThinnedOn<T>(a: seq<T>, b: seq<T>, c: seq<T>)
    requires Thinned(a, b) && Thinned(b, c)
    ensures Thinned(a, c)
    decreases |c|
  {
    if c != [] {
      if Thinned(b, c[1..]) {
        ThinnedOn(a, b, c[1..]);
      } else if Thinned(a, b[1..]) {
        ThinnedOn(a, b[1..], c[1..]);
      } else {
        ThinnedOn(a[1..], b[1..], c[1..]);
      }
    }
  }

  lemma {:induction false} ThinnedDrop<T>(s: seq<T>, k: nat)
    requires k < |s|
    ensures Thinned(Drop(s, k), s)
  {
    if k == 0 {
      assert Drop(s, 0) == s[1..];
      ThinnedSelf(s[1..]);
    } else {
      assert Drop(s, k)[1..] == Drop(s[1..], k - 1);
      ThinnedDrop(s[1..], k - 1);
    }
  }

  lemma {:induction false} ThinnedFront<T>(p: seq<T>, a: seq<T>, b: seq<T>)
    requires Thinned(a, b)
    ensures Thinned(p + a, p + b)
    decreases |p|
  {
    if p == [] {
      assert p + a == a && p + b == b;
    } else {
      ThinnedFront(p[1..], a, b);
      assert (p + a)[1..] == p[1..] + a && (p + b)[1..] == p[1..] + b;
    }
  }

  lemma {:induction false} ThinnedIn<T>(a: seq<T>, b: seq<T>)
    requires Thinned(a, b)
    ensures |a| <= |b| && forall x :: x in a ==> x in b
    decreases |b|
  {
    if b != [] {
      if Thinned(a, b[1..]) {
        ThinnedIn(a, b[1..]);
      } else {
        ThinnedIn(a[1..], b[1..]);
        assert a == [a[0]] + a[1..];
      }
    }
  }

  /** `x` comes before `y`. */
  ghost predicate Before<T>(s: seq<T>, x: T, y: T) {
    exists i, j :: 0 <= i < j < |s| && s[i] == x && s[j] == y
  }

  /** What is not left out stays in order. */
  lemma {:induction false} ThinnedOrder<T>(a: seq<T>, b: seq<T>, x: T, y: T)
    requires Thinned(a, b) && Distinct(b) && Before(b, x, y) && x in a && y in a
    ensures Before(a, x, y)
    decreases |b|
  {
    var i, j :| 0 <= i < j < |b| && b[i] == x && b[j] == y;
    if Thinned(a, b[1..]) {
      ThinnedIn(a, b[1..]);
      assert i > 0;
      assert b[1..][i - 1] == x && b[1..][j - 1] == y;
      ThinnedOrder(a, b[1..], x, y);
    } else if i == 0 {
      assert a[0] == x && x != y;
    } else {
      assert a == [a[0]] + a[1..] && a[0] == b[0];
      assert b[1..][i - 1] == x && b[1..][j - 1] == y;
      ThinnedOrder(a[1..], b[1..], x, y);
      var k, l :| 0 <= k < l < |a[1..]| && a[1..][k] == x && a[1..][l] == y;
      assert a[k + 1] == x && a[l + 1] == y;
    }
  }

  /** The first element of `b` joins the front, and of the others some are left out. */
  lemma ThinnedPassed<T>(p: seq<T>, a: seq<T>, b: seq<T>, c: seq<T>)
    requires b != [] && Thinned(p + b, c) && Thinned(a, b[1..])
    ensures Thinned(p + [b[0]] + a, c) && b[0] in c
  {
    assert p + [b[0]] + b[1..] == p + b;
    ThinnedFront(p + [b[0]], a, b[1..]);
    ThinnedOn(p + [b[0]] + a, p + b, c);
    ThinnedIn(p + b, c);
    assert (p + b)[|p|] == b[0];
  }
}
