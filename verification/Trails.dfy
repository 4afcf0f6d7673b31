/** The lists from tick to tick: what becomes of their order, and of that of the callbacks. */
module Trails {
  import opened Seals
  import opened Sequences
  import opened Spills
  import opened Links
  import opened WheelTiming
  import opened Gears

  const TRAIL: nat := 9

  /** The lists, the spokes that the wheels stand at, and the last reading of the clock. */
  datatype Stage = Stage(rings: seq<seq<Link>>, at: map<Link, nat>, spokes: seq<nat>, clock: nat)

  /** One tick: the spoke of wheel 0 goes to the ready list; of the spokes of the wheels that turn with
      it, in their order, the nodes that are due go there too, and the others to their places. */
  ghost predicate Ticked(a: Stage, b: Stage) {
    TickSeal(a, b).Kept?
  }

  ghost predicate Tickings(a: Stage, b: Stage) {
    && |a.rings| == |b.rings| == RINGS && |a.spokes| == WHEEL_NUM && a.spokes[0] < READY
    && Spilled(a.rings, Opened(a.spokes, 0), b.at, b.rings)
    && (forall x :: x in a.rings[a.spokes[0]] ==> x in b.at && b.at[x] == READY)
    && Routed(a.rings, Opened(a.spokes, 0)[1..], b.at, a.clock, b.clock)
  }

  ghost function TickSeal(a: Stage, b: Stage): Seal {
    if forall k: nat {:trigger Key(TRAIL, k)} :: Key(TRAIL, k) ==> Tickings(a, b) then Kept else Broken
  }

  lemma TickedMeans(a: Stage, b: Stage)
    requires Ticked(a, b)
    ensures Tickings(a, b)
  {
    assert Key(TRAIL, 0);
  }

  lemma RoutedSame(was: seq<seq<Link>>, mid: seq<seq<Link>>, spokes: seq<nat>, at: map<Link, nat>, early: nat, late: nat)
    requires Routed(mid, spokes, at, early, late) && |mid| == |was| && Inside(spokes, |was|)
    requires forall k :: 0 <= k < |spokes| ==> mid[spokes[k]] == was[spokes[k]]
    ensures Routed(was, spokes, at, early, late)
  {
    assert Key(ROUTE, 0);
  }

  /** The spoke of wheel 0 has been drained to `mid`, and then the wheels have turned. */
  lemma TickOn(was: Layout, spokes: seq<nat>, mid: Layout, now: Layout, spokes': seq<nat>, early: nat, late: nat)
    requires |was.rings| == |mid.heads| == |mid.rings| == |now.heads| == |now.rings| == RINGS
    requires Sound(mid) && Sound(now) && |spokes| == WHEEL_NUM && spokes[0] < 256
    requires forall v :: 0 <= v < WHEEL_NUM ==> spokes[v] < Size(v)
    requires mid.rings == was.rings[spokes[0] := []][READY := was.rings[READY] + was.rings[spokes[0]]]
    requires Spilled(mid.rings, Opened(spokes, 0)[1..], now.at, now.rings)
    requires Routed(mid.rings, Opened(spokes, 0)[1..], now.at, early, late)
    ensures Ticked(Stage(was.rings, was.at, spokes, early), Stage(now.rings, now.at, spokes', late))
  {
    var q, rest := spokes[0], Opened(spokes, 0)[1..];
    RingKnown(mid, READY);
    SpilledWhole(was.rings, q, READY, mid.at, mid.rings);
    OpenedAbove(spokes, 1);
    assert rest == if spokes[0] + 1 >= Size(0) then Opened(spokes, 1) else [];
    Undisturbed(was.rings, q, 0, mid, rest, now);
    SpilledOn(was.rings, q, mid.at, mid.rings, rest, now.at, now.rings);
    assert Opened(spokes, 0) == [q] + rest;
    RoutedSame(was.rings, mid.rings, rest, now.at, early, late);
  }

  /** The spokes that the wheels stand at after `n` ticks. */
  ghost function SpokesAt(n: nat): seq<nat> {
    [n % 256, n / 0x100 % 64, n / 0x4000 % 64, n / 0x10_0000 % 64, n / 0x400_0000 % 64]
  }

  /** Nodes are in the ring that `at` says. */
  ghost predicate Based(a: Stage) {
    |a.rings| == RINGS && BaseSeal(a).Kept?
  }

  ghost function BaseSeal(a: Stage): Seal
    requires |a.rings| == RINGS
  {
    if forall k: nat {:trigger Key(TRAIL, k)} :: Key(TRAIL, k) ==>
      forall r, x :: 0 <= r < RINGS && x in a.rings[r] ==> x in a.at && a.at[x] == r
    then Kept else Broken
  }

  lemma BasedMeans(a: Stage, r: nat, x: Link)
    requires Based(a) && r < RINGS && x in a.rings[r]
    ensures x in a.at && a.at[x] == r
  {
    assert Key(TRAIL, 0);
  }

  lemma LayoutBased(lay: Layout, a: Stage)
    requires Sound(lay) && |lay.heads| == |lay.rings| == RINGS && a.rings == lay.rings && a.at == lay.at
    ensures Based(a)
  {
    forall r, x | 0 <= r < RINGS && x in a.rings[r]
      ensures x in a.at && a.at[x] == r
    {
      RingKnown(lay, r);
    }
  }

  /** Tick after tick, from the count `n` on. */
  ghost predicate Trail(trail: seq<Stage>, n: nat) {
    TrailSeal(trail, n).Kept?
  }

  ghost predicate Steps(trail: seq<Stage>, n: nat) {
    && trail != []
    && (forall i :: 0 <= i < |trail| ==> trail[i].spokes == SpokesAt(n + i) && Based(trail[i]))
    && forall i :: 0 <= i < |trail| - 1 ==> Ticked(trail[i], trail[i + 1])
  }

  ghost function TrailSeal(trail: seq<Stage>, n: nat): Seal {
    if forall k: nat {:trigger Key(TRAIL, k)} :: Key(TRAIL, k) ==> Steps(trail, n) then Kept else Broken
  }

  lemma TrailMeans(trail: seq<Stage>, n: nat)
    requires Trail(trail, n)
    ensures Steps(trail, n)
  {
    assert Key(TRAIL, 0);
  }

  lemma TrailOne(a: Stage, n: nat)
    requires a.spokes == SpokesAt(n) && Based(a)
    ensures Trail([a], n)
  {
  }

  lemma TrailNext(trail: seq<Stage>, n: nat, b: Stage)
    requires Trail(trail, n) && trail != [] && Ticked(trail[|trail| - 1], b)
    requires b.spokes == SpokesAt(n + |trail|) && Based(b)
    ensures Trail(trail + [b], n)
  {
    TrailMeans(trail, n);
    var all := trail + [b];
    assert Steps(all, n) by {
      forall i | 0 <= i < |all| - 1
        ensures Ticked(all[i], all[i + 1])
      {
        if i < |trail| - 1 { assert Ticked(trail[i], trail[i + 1]); }
      }
    }
  }

  /** Two nodes of one ring that are due at the same time stay in one ring, in their order. */
  lemma StageOrder(a: Stage, b: Stage, x: Link, y: Link, q: nat) returns (r: nat)
    requires Ticked(a, b) && q < |a.rings| && Before(a.rings[q], x, y) && x.dead == y.dead
    ensures r < |b.rings| && Before(b.rings[r], x, y)
  {
    TickedMeans(a, b);
    assert Key(ROUTE, 0);
    var spokes := Opened(a.spokes, 0);
    assert x in a.rings[q] && y in a.rings[q];
    if q == a.spokes[0] {
      r := READY;
      assert spokes[0] == q;
    } else if q in spokes {
      var k :| 0 <= k < |spokes| && spokes[k] == q;
      assert spokes[1..][k - 1] == q;
      assert Routes(a.rings[q], b.at, a.clock, b.clock);
      r := b.at[x];
    } else {
      r := q;
    }
    SpilledMeans(a.rings, spokes, b.at, b.rings);
    SpilledOrder(a.rings, spokes, b.at, b.rings, q, r, x, y);
  }

  lemma {:induction false} TrailOrder(trail: seq<Stage>, n: nat, x: Link, y: Link, q: nat, k: nat) returns (r: nat)
    requires Trail(trail, n) && k < |trail| && q < |trail[0].rings| && Before(trail[0].rings[q], x, y) && x.dead == y.dead
    ensures r < |trail[k].rings| && Before(trail[k].rings[r], x, y)
    decreases k
  {
    if k == 0 {
      r := q;
    } else {
      var p := TrailOrder(trail, n, x, y, q, k - 1);
      TrailMeans(trail, n);
      r := StageOrder(trail[k - 1], trail[k], x, y, p);
    }
  }

  /** Of two nodes in one ring that are due at the same time, and that both are ready in the end, the
      first in the ring is the first to be ready. */
  lemma ReadyOrder(trail: seq<Stage>, n: nat, x: Link, y: Link, q: nat)
    requires Trail(trail, n) && trail != [] && q < |trail[0].rings| && Before(trail[0].rings[q], x, y) && x.dead == y.dead
    requires |trail[|trail| - 1].rings| == RINGS && x in trail[|trail| - 1].rings[READY]
    ensures Before(trail[|trail| - 1].rings[READY], x, y)
  {
    var r := TrailOrder(trail, n, x, y, q, |trail| - 1);
    TrailMeans(trail, n);
    var last := trail[|trail| - 1];
    BasedMeans(last, r, x);
    BasedMeans(last, READY, x);
  }
}
