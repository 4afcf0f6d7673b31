/** What a tick does to the order of the lists: spokes are emptied one after the other, and their nodes
    join other rings at the back, in the order they come. */
module Spills {
  import opened Seals
  import opened Sequences

  const SPILL: nat := 7

  /** Those elements of `s` that `at` puts in ring `r`, in their order. */
  ghost function Going<T>(s: seq<T>, at: map<T, nat>, r: nat): seq<T> {
    if s == [] then []
    else
      var x := s[|s| - 1];
      Going(s[..|s| - 1], at, r) + if x in at && at[x] == r then [x] else []
  }

  lemma {:induction false} GoingSame<T>(s: seq<T>, at: map<T, nat>, at': map<T, nat>, r: nat)
    requires forall x :: x in s ==> (x in at && at[x] == r <==> x in at' && at'[x] == r)
    ensures Going(s, at, r) == Going(s, at', r)
  {
    if s != [] {
      assert s[|s| - 1] in s;
      GoingSame(s[..|s| - 1], at, at', r);
    }
  }

  lemma {:induction false} GoingAll<T>(s: seq<T>, at: map<T, nat>, q: nat, r: nat)
    requires forall x :: x in s ==> x in at && at[x] == q
    ensures Going(s, at, r) == if r == q then s else []
  {
    if s != [] {
      assert s[|s| - 1] in s && s == s[..|s| - 1] + [s[|s| - 1]];
      GoingAll(s[..|s| - 1], at, q, r);
    }
  }

  lemma {:induction false} GoingNone<T>(s: seq<T>, at: map<T, nat>, r: nat)
    requires forall x :: x in s && x in at ==> at[x] != r
    ensures Going(s, at, r) == []
  {
    if s != [] {
      assert s[|s| - 1] in s;
      GoingNone(s[..|s| - 1], at, r);
    }
  }

  /** The elements of `s` have joined the rings that `at` says, one after the other. */
  ghost predicate Joined<T>(was: seq<seq<T>>, s: seq<T>, at: map<T, nat>, rings: seq<seq<T>>) {
    JoinSeal(was, s, at, rings).Kept?
  }

  ghost function JoinSeal<T>(was: seq<seq<T>>, s: seq<T>, at: map<T, nat>, rings: seq<seq<T>>): Seal {
    if forall k: nat {:trigger Key(SPILL, k)} :: Key(SPILL, k) ==>
      |rings| == |was| && forall r :: 0 <= r < |was| ==> rings[r] == was[r] + Going(s, at, r)
    then Kept else Broken
  }

  lemma JoinedNone<T>(was: seq<seq<T>>, at: map<T, nat>)
    ensures Joined(was, [], at, was)
  {
  }

  lemma JoinedNext<T>(was: seq<seq<T>>, s: seq<T>, k: nat, at: map<T, nat>, mid: seq<seq<T>>, ring: nat,
                      at': map<T, nat>, rings: seq<seq<T>>)
    requires Distinct(s) && k < |s| && Joined(was, s[..k], at, mid) && ring < |mid|
    requires at' == at[s[k] := ring] && rings == mid[ring := mid[ring] + [s[k]]]
    ensures Joined(was, s[..k + 1], at', rings)
  {
    assert Key(SPILL, 0);
    assert s[..k + 1][..k] == s[..k];
    forall r | 0 <= r < |was|
      ensures rings[r] == was[r] + Going(s[..k + 1], at', r)
    {
      GoingSame(s[..k], at, at', r);
      JoinLast(was[r], Going(s[..k], at, r), s[k]);
    }
  }

  lemma JoinLast<T>(a: seq<T>, b: seq<T>, x: T)
    ensures (a + b) + [x] == a + (b + [x]) && b + [] == b
  {
  }

  ghost predicate Inside(spokes: seq<nat>, n: nat) {
    forall k :: 0 <= k < |spokes| ==> spokes[k] < n
  }

  /** What goes from the spokes to ring `r`. */
  ghost function Poured<T>(was: seq<seq<T>>, spokes: seq<nat>, at: map<T, nat>, r: nat): seq<T>
    requires Inside(spokes, |was|)
  {
    if spokes == [] then []
    else
      Going(was[spokes[0]], at, r) + Poured(was, spokes[1..], at, r)
  }

  /** The spokes have been emptied, one after the other: every other ring has kept its elements in their
      order, and behind them come those of the first spoke, then those of the next. */
  ghost predicate Spilled<T>(was: seq<seq<T>>, spokes: seq<nat>, at: map<T, nat>, rings: seq<seq<T>>) {
    SpillSeal(was, spokes, at, rings).Kept?
  }

  ghost predicate Spills<T>(was: seq<seq<T>>, spokes: seq<nat>, at: map<T, nat>, rings: seq<seq<T>>) {
    && |rings| == |was| && Inside(spokes, |was|)
    && forall r :: 0 <= r < |was| ==> rings[r] == (if r in spokes then [] else was[r]) + Poured(was, spokes, at, r)
  }

  ghost function SpillSeal<T>(was: seq<seq<T>>, spokes: seq<nat>, at: map<T, nat>, rings: seq<seq<T>>): Seal {
    if forall k: nat {:trigger Key(SPILL, k)} :: Key(SPILL, k) ==> Spills(was, spokes, at, rings) then Kept else Broken
  }

  lemma SpilledMeans<T>(was: seq<seq<T>>, spokes: seq<nat>, at: map<T, nat>, rings: seq<seq<T>>)
    requires Spilled(was, spokes, at, rings)
    ensures Spills(was, spokes, at, rings)
  {
    assert Key(SPILL, 0);
  }

  lemma SpilledNone<T>(was: seq<seq<T>>, at: map<T, nat>)
    ensures Spilled(was, [], at, was)
  {
  }

  lemma SpilledOne<T>(was: seq<seq<T>>, q: nat, at: map<T, nat>, rings: seq<seq<T>>)
    requires q < |was| && Joined(was[q := []], was[q], at, rings)
    ensures Spilled(was, [q], at, rings)
  {
    assert Key(SPILL, 0);
    forall r | 0 <= r < |was|
      ensures rings[r] == (if r in [q] then [] else was[r]) + Poured(was, [q], at, r)
    {
      assert [q][1..] == [];
      assert Poured(was, [q], at, r) == Going(was[q], at, r) + [];
    }
  }

  /** A whole spoke that goes to one ring. */
  lemma SpilledWhole<T>(was: seq<seq<T>>, q: nat, to: nat, at: map<T, nat>, rings: seq<seq<T>>)
    requires q < |was| && to < |was| && q != to && rings == was[q := []][to := was[to] + was[q]]
    requires forall x :: x in was[q] ==> x in at && at[x] == to
    ensures Spilled(was, [q], at, rings)
  {
    assert Joined(was[q := []], was[q], at, rings) by {
      forall r | 0 <= r < |was|
        ensures rings[r] == was[q := []][r] + Going(was[q], at, r)
      {
        GoingAll(was[q], at, to, r);
      }
    }
    SpilledOne(was, q, at, rings);
  }

  lemma {:induction false} PouredSame<T>(was: seq<seq<T>>, mid: seq<seq<T>>, spokes: seq<nat>, at: map<T, nat>, r: nat)
    requires |mid| == |was| && Inside(spokes, |was|) && forall k :: 0 <= k < |spokes| ==> mid[spokes[k]] == was[spokes[k]]
    ensures Poured(mid, spokes, at, r) == Poured(was, spokes, at, r)
  {
    if spokes != [] {
      PouredSame(was, mid, spokes[1..], at, r);
    }
  }

  /** First one spoke, then others that have kept what they had; nothing of the first moves again. */
  lemma SpilledOn<T>(was: seq<seq<T>>, q: nat, at: map<T, nat>, mid: seq<seq<T>>, spokes: seq<nat>,
                     at': map<T, nat>, rings: seq<seq<T>>)
    requires Spilled(was, [q], at, mid) && Spilled(mid, spokes, at', rings) && q !in spokes
    requires q < |was| && |mid| == |was| && Inside(spokes, |was|)
    requires forall k :: 0 <= k < |spokes| ==> mid[spokes[k]] == was[spokes[k]]
    requires forall x :: x in was[q] ==> x in at && x in at' && at[x] == at'[x]
    ensures Spilled(was, [q] + spokes, at', rings)
  {
    SpilledMeans(was, [q], at, mid);
    SpilledMeans(mid, spokes, at', rings);
    var all := [q] + spokes;
    assert Spills(was, all, at', rings) by {
      forall r | 0 <= r < |was|
        ensures rings[r] == (if r in all then [] else was[r]) + Poured(was, all, at', r)
      {
        PouredSame(was, mid, spokes, at', r);
        GoingSame(was[q], at, at', r);
        assert [q][1..] == [] && all[1..] == spokes;
        assert Poured(was, [q], at, r) == Going(was[q], at, r) + [];
        assert r in all <==> r == q || r in spokes;
        PourRing(was[r], mid[r], rings[r], Going(was[q], at, r), Poured(was, spokes, at', r), r == q, r in spokes);
      }
    }
  }

  lemma PourRing<T>(was: seq<T>, mid: seq<T>, ring: seq<T>, first: seq<T>, more: seq<T>, here: bool, later: bool)
    requires mid == (if here then [] else was) + (first + []) && ring == (if later then [] else mid) + more
    requires later ==> !here && mid == was
    ensures ring == (if here || later then [] else was) + (first + more)
  {
    if later {
      assert |first| == 0;
    }
  }

  lemma BeforeJoined<T>(a: seq<T>, b: seq<T>, x: T, y: T)
    requires Before(a, x, y) || Before(b, x, y) || (x in a && y in b)
    ensures Before(a + b, x, y)
  {
    if Before(a, x, y) {
      var i, j :| 0 <= i < j < |a| && a[i] == x && a[j] == y;
      assert (a + b)[i] == x && (a + b)[j] == y;
    } else if Before(b, x, y) {
      var i, j :| 0 <= i < j < |b| && b[i] == x && b[j] == y;
      assert (a + b)[|a| + i] == x && (a + b)[|a| + j] == y;
    } else {
      var i :| 0 <= i < |a| && a[i] == x;
      var j :| 0 <= j < |b| && b[j] == y;
      assert (a + b)[i] == x && (a + b)[|a| + j] == y;
    }
  }

  lemma {:induction false} GoingIn<T>(s: seq<T>, at: map<T, nat>, r: nat, x: T)
    ensures x in Going(s, at, r) <==> x in s && x in at && at[x] == r
  {
    if s != [] {
      GoingIn(s[..|s| - 1], at, r, x);
      assert s == s[..|s| - 1] + [s[|s| - 1]];
    }
  }

  lemma {:induction false} GoingOrder<T>(s: seq<T>, at: map<T, nat>, r: nat, x: T, y: T)
    requires Before(s, x, y) && x in at && y in at && at[x] == at[y] == r
    ensures Before(Going(s, at, r), x, y)
  {
    var init, last := s[..|s| - 1], s[|s| - 1];
    var i, j :| 0 <= i < j < |s| && s[i] == x && s[j] == y;
    var g, more := Going(init, at, r), if last in at && at[last] == r then [last] else [];
    if j < |s| - 1 {
      assert init[i] == x && init[j] == y;
      GoingOrder(init, at, r, x, y);
    } else {
      assert init[i] == x;
      GoingIn(init, at, r, x);
      assert y in more;
    }
    BeforeJoined(g, more, x, y);
  }

  lemma {:induction false} PouredOrder<T>(was: seq<seq<T>>, spokes: seq<nat>, at: map<T, nat>, q: nat, r: nat, x: T, y: T)
    requires Inside(spokes, |was|) && q in spokes && q < |was|
    requires Before(was[q], x, y) && x in at && y in at && at[x] == at[y] == r
    ensures Before(Poured(was, spokes, at, r), x, y)
  {
    assert spokes == [spokes[0]] + spokes[1..];
    var g, more := Going(was[spokes[0]], at, r), Poured(was, spokes[1..], at, r);
    if spokes[0] == q {
      GoingOrder(was[q], at, r, x, y);
    } else {
      PouredOrder(was, spokes[1..], at, q, r, x, y);
    }
    BeforeJoined(g, more, x, y);
  }

  /** Two elements of one ring that stay together stay in order. */
  lemma SpilledOrder<T>(was: seq<seq<T>>, spokes: seq<nat>, at: map<T, nat>, rings: seq<seq<T>>, q: nat, r: nat, x: T, y: T)
    requires Spilled(was, spokes, at, rings) && q < |was| && r < |was| && Before(was[q], x, y)
    requires if q in spokes then x in at && y in at && at[x] == at[y] == r else q == r
    ensures r < |rings| && Before(rings[r], x, y)
  {
    SpilledMeans(was, spokes, at, rings);
    var kept, more := if r in spokes then [] else was[r], Poured(was, spokes, at, r);
    if q in spokes {
      PouredOrder(was, spokes, at, q, r, x, y);
    }
    BeforeJoined(kept, more, x, y);
  }
}
