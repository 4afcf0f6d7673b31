/** How the five wheels stand to one another, between ticks and in the middle of one. */
module Gears {
  import opened Words
  import opened Seals
  import opened Spills
  import opened Links
  import opened WheelTiming
  import opened Ledgers
  import opened Obligations

  /** Every spoke index agrees with its wheel's turns; 64 stands for 0 while a cascade runs. */
  ghost predicate Meshed(spokeIndex: seq<nat>, turns: seq<nat>) {
    |spokeIndex| == WHEEL_NUM && |turns| == WHEEL_NUM && MeshSeal(spokeIndex, turns).Kept?
  }

  ghost function MeshSeal(spokeIndex: seq<nat>, turns: seq<nat>): Seal
    requires |spokeIndex| == WHEEL_NUM && |turns| == WHEEL_NUM
  {
    if forall k: nat {:trigger Open(k)} :: Open(k) ==> forall w :: 0 <= w < WHEEL_NUM ==>
      && spokeIndex[w] <= Size(w) && spokeIndex[w] % Size(w) == turns[w] % Size(w)
      && Ticks(w, turns[w]) <= turns[0]
    then Kept else Broken
  }

  /** All wheels stand where the number of ticks done puts them. */
  ghost predicate Rest(start: nat, spokeIndex: seq<nat>, turns: seq<nat>, checktime: nat, clock: nat) {
    && |spokeIndex| == WHEEL_NUM && |turns| == WHEEL_NUM
    && (forall w :: 0 <= w < WHEEL_NUM ==> turns[w] == Spokes(w, turns[0]) && spokeIndex[w] == Spokes(w, turns[0]) % Size(w))
    && checktime == start + GRANULARITY * turns[0]
    && checktime <= clock
  }

  /** The wheel's own time. */
  ghost function Own(start: nat, turns: seq<nat>): nat
    requires |turns| == WHEEL_NUM
  {
    start + GRANULARITY * turns[0]
  }

  /** The ring for what is left of an interval, in milliseconds, as the spokes stand. */
  ghost function Place(spokeIndex: seq<nat>, ms: nat): nat
    requires |spokeIndex| == WHEEL_NUM
  {
    var w := SelectWheel(ms / GRANULARITY);
    FirstRing(w) + SelectSpoke(ms / GRANULARITY, w, spokeIndex[w])
  }

  /** Where a cascade puts a node that is due at `dead`, by the reading `now`. */
  ghost function Spot(spokeIndex: seq<nat>, dead: nat, now: nat): nat
    requires |spokeIndex| == WHEEL_NUM
  {
    if dead <= now then READY else Place(spokeIndex, dead - now)
  }

  /** The spokes that a turn of wheel `w` empties: the one it stands at, and, if it then comes round, those
      of the wheels above. */
  ghost function Opened(spokeIndex: seq<nat>, w: nat): seq<nat>
    requires |spokeIndex| == WHEEL_NUM
    decreases WHEEL_NUM - w
  {
    if w >= WHEEL_NUM then []
    else [FirstRing(w) + spokeIndex[w]] + if spokeIndex[w] + 1 >= Size(w) then Opened(spokeIndex, w + 1) else []
  }

  lemma {:induction false} OpenedSame(spokeIndex: seq<nat>, later: seq<nat>, w: nat)
    requires |spokeIndex| == |later| == WHEEL_NUM && forall v :: w <= v < WHEEL_NUM ==> later[v] == spokeIndex[v]
    ensures Opened(later, w) == Opened(spokeIndex, w)
    decreases WHEEL_NUM - w
  {
    if w < WHEEL_NUM {
      OpenedSame(spokeIndex, later, w + 1);
    }
  }

  /** Spokes of wheels above wheel `w`. */
  ghost predicate Above(spokes: seq<nat>, w: int) {
    forall k :: 0 <= k < |spokes| ==> spokes[k] < READY && w < WheelOf(spokes[k])
  }

  lemma {:induction false} OpenedAbove(spokeIndex: seq<nat>, w: nat)
    requires |spokeIndex| == WHEEL_NUM && forall v :: w <= v < WHEEL_NUM ==> spokeIndex[v] < Size(v)
    ensures Above(Opened(spokeIndex, w), w - 1)
    decreases WHEEL_NUM - w
  {
    if w < WHEEL_NUM {
      RingIndex(w, spokeIndex[w]);
      OpenedAbove(spokeIndex, w + 1);
    }
  }

  const ROUTE: nat := 8

  /** Where the nodes of the opened spokes are, with readings from `early` to `late`: the ready list takes
      those that are due, and those that are due at the same time stay together. */
  ghost predicate Routed(was: seq<seq<Link>>, spokes: seq<nat>, at: map<Link, nat>, early: nat, late: nat) {
    RouteSeal(was, spokes, at, early, late).Kept?
  }

  ghost predicate Routes(spoke: seq<Link>, at: map<Link, nat>, early: nat, late: nat) {
    && (forall x :: x in spoke ==> x in at && at[x] <= READY && (x.dead <= early ==> at[x] == READY) && (at[x] == READY ==> x.dead <= late))
    && (forall x, y :: x in spoke && y in spoke && x.dead == y.dead ==> at[x] == at[y])
  }

  ghost function RouteSeal(was: seq<seq<Link>>, spokes: seq<nat>, at: map<Link, nat>, early: nat, late: nat): Seal {
    if forall i: nat {:trigger Key(ROUTE, i)} :: Key(ROUTE, i) ==>
      Inside(spokes, |was|) && forall k :: 0 <= k < |spokes| ==> Routes(was[spokes[k]], at, early, late)
    then Kept else Broken
  }

  lemma RoutedNone(was: seq<seq<Link>>, at: map<Link, nat>, early: nat, late: nat)
    ensures Routed(was, [], at, early, late)
  {
  }

  lemma RoutesLater(spoke: seq<Link>, at: map<Link, nat>, early: nat, late: nat,
                    at': map<Link, nat>, early': nat, late': nat)
    requires Routes(spoke, at, early, late) && early' <= early && late <= late'
    requires forall x :: x in spoke ==> x in at' && at'[x] == at[x]
    ensures Routes(spoke, at', early', late')
  {
  }

  /** First one spoke, then others that have kept what they had; nothing of the first moves again. */
  lemma RoutedOn(was: seq<seq<Link>>, q: nat, at: map<Link, nat>, mid: seq<seq<Link>>, spokes: seq<nat>,
                 at': map<Link, nat>, early: nat, middle: nat, late: nat)
    requires q < |was| && Routes(was[q], at, early, middle) && Routed(mid, spokes, at', middle, late)
    requires early <= middle <= late && |mid| == |was| && Inside(spokes, |was|)
    requires forall k :: 0 <= k < |spokes| ==> mid[spokes[k]] == was[spokes[k]]
    requires forall x :: x in was[q] ==> x in at' && at'[x] == at[x]
    ensures Routed(was, [q] + spokes, at', early, late)
  {
    assert Key(ROUTE, 0);
    var all := [q] + spokes;
    assert Inside(all, |was|);
    forall k | 0 <= k < |all|
      ensures Routes(was[all[k]], at', early, late)
    {
      if k == 0 {
        RoutesLater(was[q], at, early, middle, at', early, late);
      } else {
        assert all[k] == spokes[k - 1];
        RoutesLater(was[all[k]], at', middle, late, at', early, late);
      }
    }
  }

  /** No element of the spoke has gone above wheel `w`. */
  ghost predicate Below(spoke: seq<Link>, at: map<Link, nat>, w: nat) {
    forall x :: x in spoke ==> x in at && (at[x] == READY || WheelOf(at[x]) <= w)
  }

  /** Spokes above wheel `w` have kept what they had, and so have the nodes of the emptied one. */
  lemma Undisturbed(was: seq<seq<Link>>, q: nat, w: nat, mid: Layout, spokes: seq<nat>, now: Layout)
    requires |was| == RINGS && q < READY && |mid.heads| == |mid.rings| == |now.heads| == |now.rings| == RINGS
    requires Sound(mid) && Sound(now)
    requires Spilled(was, [q], mid.at, mid.rings) && Spilled(mid.rings, spokes, now.at, now.rings)
    requires WheelOf(q) <= w && Below(was[q], mid.at, w)
    requires Above(spokes, w)
    ensures q !in spokes && Inside(spokes, RINGS) && forall k :: 0 <= k < |spokes| ==> mid.rings[spokes[k]] == was[spokes[k]]
    ensures forall x :: x in was[q] ==> x in now.at && now.at[x] == mid.at[x]
  {
    SpilledMeans(was, [q], mid.at, mid.rings);
    SpilledMeans(mid.rings, spokes, now.at, now.rings);
    forall k | 0 <= k < |spokes|
      ensures mid.rings[spokes[k]] == was[spokes[k]]
    {
      GoingNone(was[q], mid.at, spokes[k]);
      assert [q][1..] == [];
      assert Poured(was, [q], mid.at, spokes[k]) == [];
    }
    RingBound(mid);
    forall x | x in was[q]
      ensures x in now.at && now.at[x] == mid.at[x]
    {
      var r := mid.at[x];
      assert x in mid.rings[r] && r !in spokes;
      RingKnown(now, r);
      assert x in now.rings[r];
    }
  }

  /** Spoke `q` of wheel `w` has been emptied. */
  ghost predicate Turned(was: seq<seq<Link>>, q: nat, w: nat, lay: Layout, early: nat, late: nat) {
    TurnSeal(was, q, w, lay, early, late).Kept?
  }

  ghost function TurnSeal(was: seq<seq<Link>>, q: nat, w: nat, lay: Layout, early: nat, late: nat): Seal {
    if forall k: nat {:trigger Key(ROUTE, k)} :: Key(ROUTE, k) ==>
      && q < |was| && q < READY && WheelOf(q) == w && Spilled(was, [q], lay.at, lay.rings)
      && Routes(was[q], lay.at, early, late) && Below(was[q], lay.at, w)
    then Kept else Broken
  }

  lemma TurnedAlone(was: seq<seq<Link>>, q: nat, w: nat, lay: Layout, early: nat, late: nat)
    requires Turned(was, q, w, lay, early, late)
    ensures Spilled(was, [q], lay.at, lay.rings) && Routed(was, [q], lay.at, early, late)
  {
    assert Key(ROUTE, 0);
    assert Inside([q], |was|);
  }

  /** One spoke has been emptied, then those of the wheels above. */
  lemma CascadeOn(was: seq<seq<Link>>, q: nat, w: nat, mid: Layout, spokes: seq<nat>, now: Layout,
                  early: nat, middle: nat, late: nat)
    requires |was| == RINGS && |mid.heads| == |mid.rings| == |now.heads| == |now.rings| == RINGS
    requires Sound(mid) && Sound(now)
    requires Turned(was, q, w, mid, early, middle) && Above(spokes, w)
    requires Spilled(mid.rings, spokes, now.at, now.rings) && Routed(mid.rings, spokes, now.at, middle, late)
    requires early <= middle <= late
    ensures Spilled(was, [q] + spokes, now.at, now.rings) && Routed(was, [q] + spokes, now.at, early, late)
  {
    assert Key(ROUTE, 0);
    Undisturbed(was, q, w, mid, spokes, now);
    SpilledOn(was, q, mid.at, mid.rings, spokes, now.at, now.rings);
    RoutedOn(was, q, mid.at, mid.rings, spokes, now.at, early, middle, late);
  }

  /** The spokes of wheels that the cascade has not yet reached are within their wheels. */
  lemma GearedSpokes(spokeIndex: seq<nat>, turns: seq<nat>, w: nat)
    requires Geared(spokeIndex, turns, w)
    ensures forall v :: 0 <= v < WHEEL_NUM ==> spokeIndex[v] < Size(v)
  {
    assert Open(0);
  }

  /** Every placement is in time, whichever wheel it selects. */
  lemma PlacedSlotted(start: nat, turns: seq<nat>, spokeIndex: seq<nat>, ms: nat, now: nat)
    requires Meshed(spokeIndex, turns) && ms / GRANULARITY < TWO_32
    requires Own(start, turns) <= now
    ensures var w := SelectWheel(ms / GRANULARITY);
            var ring := FirstRing(w) + SelectSpoke(ms / GRANULARITY, w, spokeIndex[w]);
            && ring < READY && Slotted(start, turns, ring, now + ms, Placement(now, Own(start, turns)))
            && Settled(ring, now + ms, now) && WheelOf(ring) == w
  {
    assert Open(0);
    var interval := ms / GRANULARITY;
    var w := SelectWheel(interval);
    var spoke := SelectSpoke(interval, w, spokeIndex[w]);
    PlacedTurn(interval, turns[w], spokeIndex[w]);
    PlacedDue(interval, turns[w], spokeIndex[w], turns[0]);
    RingIndex(w, spoke);
    assert GRANULARITY * interval <= ms < GRANULARITY * interval + GRANULARITY;
  }

  /** In the middle of a tick: the wheels below `w` stand where the new count puts them, the
      others still where the old one did. */
  ghost predicate Geared(spokeIndex: seq<nat>, turns: seq<nat>, w: nat) {
    |spokeIndex| == WHEEL_NUM && |turns| == WHEEL_NUM && turns[0] > 0 && GearSeal(spokeIndex, turns, w).Kept?
  }

  ghost function GearSeal(spokeIndex: seq<nat>, turns: seq<nat>, w: nat): Seal
    requires |spokeIndex| == WHEEL_NUM && |turns| == WHEEL_NUM && turns[0] > 0
  {
    if forall k: nat {:trigger Open(k)} :: Open(k) ==> forall v :: 0 <= v < WHEEL_NUM ==>
      && turns[v] == Spokes(v, if v < w then turns[0] else turns[0] - 1)
      && spokeIndex[v] == turns[v] % Size(v)
    then Kept else Broken
  }

  lemma GearedMeshed(spokeIndex: seq<nat>, turns: seq<nat>, w: nat)
    requires Geared(spokeIndex, turns, w)
    ensures Meshed(spokeIndex, turns)
  {
    assert Open(0);
    forall v | 0 <= v < WHEEL_NUM
      ensures Ticks(v, turns[v]) <= turns[0]
    {
      SpokesRound(v, if v < w then turns[0] else turns[0] - 1);
    }
  }

  /** A wheel that need not turn stops the cascade with every wheel in place. */
  lemma GearedOn(spokeIndex: seq<nat>, turns: seq<nat>, w: nat)
    requires Geared(spokeIndex, turns, w) && w < WHEEL_NUM && !Turns(w, turns[0])
    ensures Geared(spokeIndex, turns, WHEEL_NUM)
  {
    assert Open(0);
    forall v | w <= v < WHEEL_NUM
      ensures turns[v] == Spokes(v, turns[0])
    {
      if Turns(v, turns[0]) { CarryAbove(w, v, turns[0]); }
      TickTurns(v, turns[0]);
    }
  }

  lemma GearedStep(spokeIndex: seq<nat>, turns: seq<nat>, w: nat)
    requires Geared(spokeIndex, turns, w) && 0 < w < WHEEL_NUM && Turns(w, turns[0])
    ensures Geared(spokeIndex[w := (turns[w] + 1) % 64], turns[w := turns[w] + 1], w + 1)
  {
    assert Open(0);
    TickTurns(w, turns[0]);
  }

  /** Wheel `w` makes its turn, and comes round or not. */
  lemma GearedTurn(spokeIndex: seq<nat>, turns: seq<nat>, w: nat, spokes: seq<nat>, turned: seq<nat>)
    requires Geared(spokeIndex, turns, w) && 0 < w < WHEEL_NUM && Turns(w, turns[0])
    requires turned == turns[w := turns[w] + 1] && spokes == spokeIndex[w := spokeIndex[w] + 1]
    ensures spokeIndex[w] < 64 && Meshed(spokes, turned) && turned[0] == turns[0]
    ensures spokes[w] < 64 ==> Geared(spokes, turned, WHEEL_NUM)
    ensures spokes[w] >= 64 ==> Geared(spokes[w := 0], turned, w + 1) && (w + 1 < WHEEL_NUM ==> Turns(w + 1, turns[0]))
  {
    assert Open(0);
    GearedStep(spokeIndex, turns, w);
    NextSpoke(turns[w]);
    var next := (turns[w] + 1) % 64;
    GearedMeshed(spokeIndex[w := next], turned, w + 1);
    assert spokes[w := 0] == spokeIndex[w := 0];
    if w + 1 < WHEEL_NUM {
      Carry(w, turns[0]);
      if next != 0 { GearedOn(spokeIndex[w := next], turned, w + 1); }
    }
  }

  lemma SpokePassed(w: nat, spokeIndex: seq<nat>, turns: seq<nat>)
    requires Meshed(spokeIndex, turns) && 1 <= w < WHEEL_NUM && spokeIndex[w] < 64
    ensures spokeIndex[w] == turns[w] % Size(w)
  {
    assert Open(0);
  }

  /** Wheel 0 makes its turn: at rest before, in the middle of a tick after. */
  lemma FirstTurn(spokeIndex: seq<nat>, turns: seq<nat>, start: nat, checktime: nat, clock: nat)
    requires Rest(start, spokeIndex, turns, checktime, clock)
    ensures turns[0] % 256 == FirstRing(0) + turns[0] % Size(0)
    ensures var turns' := turns[0 := turns[0] + 1];
            && (spokeIndex[0] + 1 < 256 ==> Geared(spokeIndex[0 := spokeIndex[0] + 1], turns', WHEEL_NUM))
            && (spokeIndex[0] + 1 < 256 ==> Meshed(spokeIndex[0 := spokeIndex[0] + 1], turns'))
            && (spokeIndex[0] + 1 >= 256 ==>
                  Geared(spokeIndex[0 := spokeIndex[0] + 1][0 := 0], turns', 1) && Turns(1, turns'[0]))
  {
    var turns', next := turns[0 := turns[0] + 1], (turns[0] + 1) % 256;
    NextSpoke0(turns[0]);
    var spokes := spokeIndex[0 := next];
    assert Geared(spokes, turns', 1);
    assert spokeIndex[0 := spokeIndex[0] + 1][0 := 0] == spokeIndex[0 := 0];
    Carry(0, turns'[0]);
    if next != 0 {
      GearedOn(spokes, turns', 1);
      GearedMeshed(spokes, turns', WHEEL_NUM);
    }
  }

  lemma GearedRest(spokeIndex: seq<nat>, turns: seq<nat>, start: nat, checktime: nat, clock: nat)
    requires Geared(spokeIndex, turns, WHEEL_NUM) && checktime == start + GRANULARITY * turns[0] && checktime <= clock
    ensures Rest(start, spokeIndex, turns, checktime, clock)
  {
    assert Open(0);
  }
}
