/** The intrusive circular lists of the timer: every spoke of every wheel and the ready
    list is a ring of `Link`s closed by a header link. */
module Links {
  import opened Seals
  import opened Sequences

  datatype Kind = Once | Circle

  /** `timer_task` without its callback, whose effects are an input of the model. */
  datatype Task = Task(id: nat, interval: nat, kind: Kind)

  /** One arming of a task: `serial` tells armings apart. */
  datatype Arming = Arming(serial: nat, dead: nat, task: Task)

  /** `timer_node` with its embedded `node_link`; a header uses the two pointers only. */
  class Link {
    var prev: Link?
    var next: Link?
    const dead: nat
    const task: Task
    ghost const serial: nat

    constructor (dead: nat, task: Task, ghost serial: nat)
      ensures this.dead == dead && this.task == task && this.serial == serial
      ensures prev == this && next == this
    {
      this.dead, this.task, this.serial := dead, task, serial;
      prev, next := this, this;
    }

    ghost function Entry(): Arming {
      Arming(serial, dead, task)
    }
  }

  const RINGS: nat := 513
  const READY: nat := 512

  lemma DropElements<T>(s: seq<T>, k: nat)
    requires k < |s|
    requires forall i, j :: 0 <= i < j < |s| ==> s[i] != s[j]
    ensures forall y :: y in Drop(s, k) <==> y in s && y != s[k]
    ensures forall i, j :: 0 <= i < j < |Drop(s, k)| ==> Drop(s, k)[i] != Drop(s, k)[j]
  {
    forall y | y in s && y != s[k]
      ensures y in Drop(s, k)
    {
      var j :| 0 <= j < |s| && s[j] == y;
      assert Drop(s, k)[if j < k then j else j - 1] == y;
    }
  }

  /** `next` and `prev` realise the successor map. */
  ghost predicate Linked(succ: map<Link, Link>)
    reads succ.Keys, succ.Values
  {
    forall a :: a in succ ==> a.next == succ[a] && succ[a].prev == a
  }

  /** The lists as values: each ring's header and nodes, each node's ring, each link's successor.
      `front` precedes the first ready node: the ready header, or the node whose callback runs. */
  datatype Layout = Layout(heads: seq<Link>, rings: seq<seq<Link>>, at: map<Link, nat>,
                           succ: map<Link, Link>, front: Link)
  {
    ghost function Cells(r: nat): seq<Link>
      requires r < |heads| && r < |rings|
    {
      [if r == READY then front else heads[r]] + rings[r] + [heads[r]]
    }

    ghost function Last(r: nat): Link
      requires r < |heads| && r < |rings|
    {
      Cells(r)[|rings[r]|]
    }

    ghost function Repr(): set<Link> {
      (set h | h in heads) + at.Keys + {front}
    }

    /** Every node is in exactly one ring, once; headers are in none. */
    ghost predicate Placed() {
      && |heads| == RINGS && |rings| == RINGS
      && Distinct(heads)
      && (forall r :: 0 <= r < RINGS ==> heads[r] !in at)
      && (forall x :: x in at ==> at[x] < RINGS && x in rings[at[x]])
      && (forall r :: 0 <= r < RINGS ==> Owned(r))
      && front !in at
      && (front == heads[READY] || front !in heads)
    }

    ghost predicate Owned(r: nat)
      requires r < |rings|
    {
      && Distinct(rings[r])
      && forall k :: 0 <= k < |rings[r]| ==> rings[r][k] in at && at[rings[r][k]] == r
    }

    ghost predicate Shape() {
      && Placed()
      && forall r :: 0 <= r < RINGS ==> Threaded(r)
    }

    /** No link outside the lists points in or is pointed at. */
    ghost predicate Closed() {
      forall a :: a in succ ==> (a in at || a in heads || a == front) && (succ[a] in at || succ[a] in heads)
    }

    /** Successors run along the ring. */
    ghost predicate Threaded(r: nat)
      requires r < |heads| && r < |rings|
    {
      forall k :: 0 <= k <= |rings[r]| ==> Follows(r, k)
    }

    ghost predicate Follows(r: nat, k: nat)
      requires r < |heads| && r < |rings| && k <= |rings[r]|
    {
      Cells(r)[k] in succ && succ[Cells(r)[k]] == Cells(r)[k + 1]
    }

    ghost function Append(r: nat, x: Link): Layout
      requires r < |heads| && r < |rings|
    {
      Layout(heads, rings[r := rings[r] + [x]], at[x := r], succ[Last(r) := x][x := heads[r]], front)
    }

    ghost function Remove(r: nat, k: nat): Layout
      requires r < |heads| && r < |rings| && k < |rings[r]|
    {
      var s := Cells(r);
      Layout(heads, rings[r := Drop(rings[r], k)], at - {s[k + 1]}, (succ - {s[k + 1]})[s[k] := s[k + 2]], front)
    }

    lemma Thread(r: nat, k: nat)
      requires Shape() && r < RINGS && k <= |rings[r]|
      ensures Cells(r)[k] in succ && succ[Cells(r)[k]] == Cells(r)[k + 1]
    {
      assert Threaded(r) && Follows(r, k);
    }

    lemma CellsApart(q: nat, r: nat, j: nat, k: nat)
      requires Placed() && q < RINGS && r < RINGS && q != r
      requires j <= |rings[q]| && k <= |rings[r]|
      ensures Cells(q)[j] != Cells(r)[k]
    {
      assert Owned(q) && Owned(r);
    }

    lemma CellsDistinct(r: nat, j: nat, k: nat)
      requires Placed() && r < RINGS && j < k <= |rings[r]|
      ensures Cells(r)[j] != Cells(r)[k]
    {
      assert Owned(r);
    }

    lemma AppendPlaced(r: nat, x: Link)
      requires Placed() && r < RINGS
      requires x !in at && x !in heads && x != front
      ensures Append(r, x).Placed()
    {
      var that := Append(r, x);
      assert that.rings[r][|rings[r]|] == x;
      assert forall y :: y in rings[r] ==> y in that.rings[r];
      forall q | 0 <= q < RINGS
        ensures that.Owned(q)
      {
        assert Owned(q);
      }
    }

    lemma Outside(x: Link, r: nat)
      requires Placed() && r < RINGS
      requires x !in at && x !in heads && x != front
      ensures x !in Cells(r)
    {
      assert Owned(r);
    }

    lemma AppendThreaded(r: nat, x: Link, q: nat)
      requires Placed() && r < RINGS && q < RINGS && Threaded(q)
      requires x !in at && x !in heads && x != front
      ensures Append(r, x).Threaded(q)
    {
      var that, s := Append(r, x), Cells(q);
      Outside(x, q);
      if q == r {
        assert that.Cells(r) == s[..|rings[r]| + 1] + [x, heads[r]];
        forall k | 0 <= k <= |that.rings[r]|
          ensures that.Follows(r, k)
        {
          if k < |rings[r]| {
            CellsDistinct(r, k, |rings[r]|);
            assert Follows(r, k);
          }
        }
      } else {
        assert that.Cells(q) == s;
        forall k | 0 <= k <= |rings[q]|
          ensures that.Follows(q, k)
        {
          CellsApart(q, r, k, |rings[r]|);
          assert Follows(q, k);
        }
      }
    }

    lemma AppendShape(r: nat, x: Link)
      requires Shape() && r < RINGS
      requires x !in at && x !in heads && x != front
      ensures Append(r, x).Shape()
    {
      AppendPlaced(r, x);
      forall q | 0 <= q < RINGS
        ensures Append(r, x).Threaded(q)
      {
        AppendThreaded(r, x, q);
      }
    }

    lemma AppendClosed(r: nat, x: Link)
      requires Shape() && Closed() && r < RINGS
      ensures Append(r, x).Closed()
    {
      Thread(r, |rings[r]|);
    }

    lemma RemoveClosed(r: nat, k: nat)
      requires Shape() && Closed() && r < RINGS && k < |rings[r]|
      requires forall a :: a in succ && succ[a] == rings[r][k] ==> a == Cells(r)[k]
      ensures Remove(r, k).Closed()
    {
      Thread(r, k);
      Thread(r, k + 1);
      var s, x, that := Cells(r), rings[r][k], Remove(r, k);
      assert s[k + 1] == x && s[k + 2] != x by {
        assert Owned(r);
        if k + 1 < |rings[r]| { CellsDistinct(r, k + 1, k + 2); }
      }
      forall a | a in that.succ
        ensures (a in that.at || a in heads || a == front) && (that.succ[a] in that.at || that.succ[a] in heads)
      {
        if a == s[k] {
          assert that.succ[a] == s[k + 2] == succ[x];
        }
      }
    }

    lemma RemovePlaced(r: nat, k: nat)
      requires Placed() && r < RINGS && k < |rings[r]|
      ensures Remove(r, k).Placed()
    {
      var that := Remove(r, k);
      assert Owned(r);
      DropElements(rings[r], k);
      forall q | 0 <= q < RINGS
        ensures that.Owned(q)
      {
        assert Owned(q);
        if q == r {
          forall j | 0 <= j < |that.rings[r]|
            ensures that.rings[r][j] in that.at && that.at[that.rings[r][j]] == r
          {
            assert that.rings[r][j] in rings[r];
          }
        }
      }
    }

    lemma RemoveThreadedSame(r: nat, k: nat)
      requires r < |heads| && r < |rings| && Threaded(r) && k < |rings[r]|
      requires forall i, j :: 0 <= i < j <= |rings[r]| ==> Cells(r)[i] != Cells(r)[j]
      ensures Remove(r, k).Threaded(r)
    {
      var that, s := Remove(r, k), Cells(r);
      assert that.Cells(r) == s[..k + 1] + s[k + 2..];
      forall j | 0 <= j <= |that.rings[r]|
        ensures that.Follows(r, j)
      {
        var i := if j <= k then j else j + 1;
        assert that.Cells(r)[j] == s[i] && s[i] != s[k + 1];
        assert Follows(r, i);
        if i != k { assert s[i] != s[k]; }
      }
    }

    lemma RemoveThreaded(r: nat, k: nat, q: nat)
      requires Placed() && r < RINGS && k < |rings[r]| && q < RINGS && Threaded(q) && Threaded(r)
      ensures Remove(r, k).Threaded(q)
    {
      if q == r {
        forall i, j | 0 <= i < j <= |rings[r]|
          ensures Cells(r)[i] != Cells(r)[j]
        {
          CellsDistinct(r, i, j);
        }
        RemoveThreadedSame(r, k);
      } else {
        assert Remove(r, k).Cells(q) == Cells(q);
        forall j | 0 <= j <= |rings[q]|
          ensures Remove(r, k).Follows(q, j)
        {
          CellsApart(q, r, j, k);
          CellsApart(q, r, j, k + 1);
          assert Follows(q, j);
        }
      }
    }

    lemma RemoveShape(r: nat, k: nat)
      requires Shape() && r < RINGS && k < |rings[r]|
      ensures Remove(r, k).Shape()
    {
      RemovePlaced(r, k);
      forall q | 0 <= q < RINGS
        ensures Remove(r, k).Threaded(q)
      {
        RemoveThreaded(r, k, q);
      }
    }

    /** Ring `r` emptied in one go, its header closed on itself. */
    ghost function Detach(r: nat): Layout
      requires r < |heads| && r < |rings|
    {
      var gone := set x | x in rings[r];
      Layout(heads, rings[r := []], at - gone, (succ - gone)[heads[r] := heads[r]], front)
    }

    lemma DetachShape(r: nat)
      requires Shape() && r < READY
      ensures Detach(r).Shape()
    {
      var that := Detach(r);
      assert Owned(r);
      forall q | 0 <= q < RINGS
        ensures that.Owned(q)
      {
        assert Owned(q);
      }
      forall q | 0 <= q < RINGS
        ensures that.Threaded(q)
      {
        assert Threaded(q);
        if q != r {
          assert that.Cells(q) == Cells(q);
          forall k | 0 <= k <= |rings[q]|
            ensures that.Follows(q, k)
          {
            assert Owned(q) && Follows(q, k);
            CellsApart(q, r, k, 0);
          }
        }
      }
    }

    /** The first ready node leaves the list while its outgoing pointer is still needed. */
    ghost function Pop(): Layout
      requires RINGS == |rings| && rings[READY] != []
    {
      var x := rings[READY][0];
      Layout(heads, rings[READY := rings[READY][1..]], at - {x}, succ - {front}, x)
    }

    lemma PopPlaced()
      requires Placed() && rings[READY] != []
      ensures Pop().Placed()
    {
      var that, s := Pop(), rings[READY];
      assert Owned(READY);
      DropElements(s, 0);
      assert s[1..] == Drop(s, 0);
      forall q | 0 <= q < RINGS
        ensures that.Owned(q)
      {
        assert Owned(q);
      }
    }

    lemma PopThreaded(q: nat)
      requires Placed() && rings[READY] != [] && q < RINGS && Threaded(q)
      ensures Pop().Threaded(q)
    {
      var that := Pop();
      if q == READY {
        assert that.Cells(READY) == Cells(READY)[1..];
        forall k | 0 <= k < |rings[READY]|
          ensures that.Follows(READY, k)
        {
          assert Follows(READY, k + 1);
          CellsDistinct(READY, 0, k + 1);
        }
      } else {
        assert that.Cells(q) == Cells(q);
        forall k | 0 <= k <= |rings[q]|
          ensures that.Follows(q, k)
        {
          assert Follows(q, k);
          CellsApart(q, READY, k, 0);
        }
      }
    }

    lemma PopShape()
      requires Shape() && rings[READY] != []
      ensures Pop().Shape()
    {
      PopPlaced();
      forall q | 0 <= q < RINGS
        ensures Pop().Threaded(q)
      {
        PopThreaded(q);
      }
    }

    /** The drained ready list closed on its header again. */
    ghost function Close(): Layout
      requires RINGS == |heads|
    {
      Layout(heads, rings, at, (succ - {front})[heads[READY] := heads[READY]], heads[READY])
    }

    lemma CloseShape()
      requires Shape() && rings[READY] == []
      ensures Close().Shape()
    {
      var that := Close();
      forall q | 0 <= q < RINGS
        ensures that.Owned(q)
      {
        assert Owned(q);
      }
      forall q | 0 <= q < RINGS
        ensures that.Threaded(q)
      {
        assert Threaded(q);
        if q != READY {
          assert that.Cells(q) == Cells(q);
          forall k | 0 <= k <= |rings[q]|
            ensures that.Follows(q, k)
          {
            assert Owned(q) && Follows(q, k);
            CellsApart(q, READY, k, 0);
          }
        }
      }
    }
  }

  /** A layout is in order. */
  ghost predicate Sound(lay: Layout) {
    LayoutSeal(lay).Kept?
  }

  ghost function LayoutSeal(lay: Layout): Seal {
    if forall k: nat {:trigger Open(k)} :: Open(k) ==> lay.Shape() && lay.Closed() then Kept else Broken
  }

  lemma EndsKnown(lay: Layout, r: nat)
    requires Sound(lay) && r < |lay.heads| && r < |lay.rings| && r < RINGS
    ensures lay.heads[r] in lay.Repr() && lay.Last(r) in lay.Repr()
    ensures lay.front !in lay.at && lay.heads[r] !in lay.at
  {
    assert Open(0);
    lay.Thread(r, |lay.rings[r]|);
  }

  /** Where a node is, and its neighbours. */
  lemma Around(lay: Layout, x: Link) returns (r: nat, k: nat)
    requires Sound(lay) && x in lay.at && |lay.heads| == RINGS && |lay.rings| == RINGS
    ensures r == lay.at[x] && r < RINGS && k < |lay.rings[r]| && lay.rings[r][k] == x && lay.Cells(r)[k + 1] == x
    ensures lay.Cells(r)[k] in lay.succ && lay.succ[lay.Cells(r)[k]] == x
    ensures x in lay.succ && lay.succ[x] == lay.Cells(r)[k + 2] && lay.succ[x] != x
    ensures lay.Cells(r)[k] in lay.Repr() && lay.Cells(r)[k + 2] in lay.Repr() && x !in lay.heads && x != lay.front
  {
    assert Open(0);
    r := lay.at[x];
    k :| 0 <= k < |lay.rings[r]| && lay.rings[r][k] == x;
    lay.Thread(r, k);
    lay.Thread(r, k + 1);
    assert lay.Owned(r);
    assert lay.Cells(r)[k + 1] == x;
  }

  lemma RemoveSound(lay: Layout, r: nat, k: nat)
    requires Sound(lay) && |lay.heads| == RINGS && |lay.rings| == RINGS && r < RINGS && k < |lay.rings[r]|
    requires forall a :: a in lay.succ && lay.succ[a] == lay.rings[r][k] ==> a == lay.Cells(r)[k]
    ensures Sound(lay.Remove(r, k))
  {
    assert Open(0);
    lay.RemoveShape(r, k);
    lay.RemoveClosed(r, k);
  }

  lemma AppendSound(lay: Layout, r: nat, x: Link)
    requires Sound(lay) && |lay.heads| == RINGS && |lay.rings| == RINGS && r < RINGS
    requires x !in lay.at && x !in lay.heads && x != lay.front
    ensures Sound(lay.Append(r, x))
    ensures lay.Last(r) in lay.succ && lay.succ[lay.Last(r)] == lay.heads[r]
    ensures x !in lay.succ && x !in lay.succ.Values
  {
    assert Open(0);
    lay.Thread(r, |lay.rings[r]|);
    lay.AppendShape(r, x);
    lay.AppendClosed(r, x);
  }

  /** The nodes of a ring in the successor map. */
  lemma RingChain(lay: Layout, r: nat)
    requires Sound(lay) && |lay.heads| == RINGS && |lay.rings| == RINGS && r < READY
    ensures forall k :: 0 <= k < |lay.rings[r]| ==>
              && lay.rings[r][k] in lay.succ && lay.succ[lay.rings[r][k]] == lay.Cells(r)[k + 2]
              && lay.rings[r][k] != lay.heads[r]
    ensures var last := if lay.rings[r] == [] then lay.heads[r] else lay.rings[r][|lay.rings[r]| - 1];
            last in lay.succ && lay.succ[last] == lay.heads[r]
    ensures Linked(lay.succ) ==> forall a :: a in lay.succ && lay.succ[a] in lay.rings[r] ==> a in lay.rings[r] || a == lay.heads[r]
  {
    assert Open(0);
    var h, ring := lay.heads[r], lay.rings[r];
    assert lay.Owned(r);
    lay.Thread(r, 0);
    forall k | 0 <= k < |ring|
      ensures ring[k] in lay.succ && lay.succ[ring[k]] == lay.Cells(r)[k + 2] && ring[k] != h
      ensures lay.Cells(r)[k] in lay.succ && lay.succ[lay.Cells(r)[k]] == ring[k]
    {
      lay.Thread(r, k);
      lay.Thread(r, k + 1);
      assert lay.Cells(r)[k + 1] == ring[k];
    }
    if Linked(lay.succ) {
      forall a | a in lay.succ && lay.succ[a] in ring
        ensures a in ring || a == h
      {
        var k :| 0 <= k < |ring| && ring[k] == lay.succ[a];
        assert a == lay.Cells(r)[k];
      }
    }
  }

  lemma DetachSound(lay: Layout, r: nat)
    requires Sound(lay) && Linked(lay.succ) && |lay.heads| == RINGS && |lay.rings| == RINGS && r < READY
    ensures Sound(lay.Detach(r)) && lay.Detach(r).succ.Keys <= lay.succ.Keys + {lay.heads[r]}
    ensures forall a :: a in lay.Detach(r).succ && a != lay.heads[r] ==> lay.succ[a] != lay.heads[r]
    ensures forall k :: 0 <= k < |lay.rings[r]| ==>
              lay.rings[r][k] in lay.succ && lay.succ[lay.rings[r][k]] == lay.Cells(r)[k + 2] && lay.rings[r][k] != lay.heads[r]
  {
    RingChain(lay, r);
    assert Open(0);
    lay.DetachShape(r);
  }

  lemma PopSound(lay: Layout)
    requires Sound(lay) && Linked(lay.succ) && |lay.rings| == RINGS && lay.rings[READY] != []
    ensures Sound(lay.Pop()) && lay.Pop().succ == lay.succ - {lay.front}
  {
    assert Open(0);
    lay.PopShape();
    lay.Thread(READY, 0);
  }

  lemma CloseSound(lay: Layout)
    requires Sound(lay) && Linked(lay.succ) && |lay.heads| == RINGS && |lay.rings| == RINGS && lay.rings[READY] == []
    ensures Sound(lay.Close())
    ensures lay.front in lay.succ && lay.succ[lay.front] == lay.heads[READY]
  {
    assert Open(0);
    lay.Thread(READY, 0);
    lay.CloseShape();
  }

  lemma SoleIndex(lay: Layout, r: nat, k: nat)
    requires Sound(lay) && r < RINGS && RINGS == |lay.rings|
    requires k < |lay.rings[r]| && lay.rings[r][k] == lay.rings[r][0]
    ensures k == 0
  {
    assert Open(0);
    assert lay.Owned(r);
  }

  lemma ClosedAway(lay: Layout, x: Link)
    requires Sound(lay) && x !in lay.Repr()
    ensures x !in lay.succ && x !in lay.succ.Values
  {
    assert Open(0);
  }

  /** The four pointer writes that put `x` between `last` and its successor `h`. */
  method LinkBefore(h: Link, x: Link, ghost succ: map<Link, Link>, ghost last: Link)
    requires Linked(succ) && last in succ && succ[last] == h
    requires x !in succ && x !in succ.Values
    modifies x, h, last
    ensures Linked(succ[last := x][x := h])
  {
    x.prev := h.prev;
    h.prev.next := x;
    x.next := h;
    h.prev := x;
  }

  /** The two pointer writes that take `x` out from between its neighbours. */
  method JoinAround(x: Link, ghost succ: map<Link, Link>)
    requires Linked(succ) && x in succ && x in succ.Values && succ[x] != x
    modifies {x.prev, x.next}
    ensures old(x.prev) != null && Linked((succ - {x})[old(x.prev) := succ[x]])
  {
    x.prev.next := x.next;
    x.next.prev := x.prev;
  }

  /** The chain of nodes cut off from a header can still be walked. */
  ghost predicate Walkable(chain: seq<Link>, head: Link)
    reads chain
  {
    forall k :: 0 <= k < |chain| ==> chain[k].next == (if k + 1 < |chain| then chain[k + 1] else head)
  }

  ghost function Elements(chain: seq<Link>): set<Link> {
    set x | x in chain
  }

  lemma ElementsTail(chain: seq<Link>, k: nat)
    requires Distinct(chain) && k < |chain|
    ensures Elements(chain[k..]) - {chain[k]} == Elements(chain[k + 1..])
  {
    assert chain[k..] == [chain[k]] + chain[k + 1..];
  }

  ghost function Start(chain: seq<Link>, head: Link): Link {
    if chain == [] then head else chain[0]
  }

  ghost function Entries(s: seq<Link>): seq<Arming> {
    seq(|s|, i requires 0 <= i < |s| => s[i].Entry())
  }

  /** The nodes of a ring are those placed in it. */
  lemma RingKnown(lay: Layout, ring: nat)
    requires Sound(lay) && |lay.heads| == RINGS && |lay.rings| == RINGS && ring < RINGS
    ensures Distinct(lay.rings[ring])
    ensures forall x :: x in lay.rings[ring] ==> x in lay.at && lay.at[x] == ring && x !in lay.heads && x != lay.front
    ensures forall x :: x in lay.at && lay.at[x] == ring ==> x in lay.rings[ring]
  {
    assert Open(0);
    assert lay.Owned(ring);
  }

  lemma RingBound(lay: Layout)
    requires Sound(lay) && |lay.heads| == RINGS && |lay.rings| == RINGS
    ensures forall x :: x in lay.at ==> lay.at[x] <= READY && x in lay.rings[lay.at[x]]
  {
    assert Open(0);
  }

  /** The heap: a header per ring, and the layout the pointers realise. */
  class Lists {
    const heads: seq<Link>
    ghost var lay: Layout

    ghost predicate Valid()
      reads this, lay.succ.Keys, lay.succ.Values
    {
      && lay.heads == heads && |heads| == RINGS && |lay.rings| == RINGS
      && Sound(lay) && Linked(lay.succ)
    }

    /** All lists empty, as the constructors of `wheel` and `node_link` leave them. */
    constructor ()
      ensures Valid() && fresh(lay.Repr())
      ensures lay.rings == seq(RINGS, _ => []) && lay.at == map[] && lay.front == heads[READY]
    {
      var hs: seq<Link> := [];
      var i := 0;
      while i < RINGS
        invariant i <= RINGS && |hs| == i
        invariant fresh(hs)
        invariant forall r :: 0 <= r < i ==> hs[r].next == hs[r] && hs[r].prev == hs[r]
        invariant Distinct(hs)
      {
        var h := new Link(0, Task(0, 0, Once), 0);
        hs := hs + [h];
        i := i + 1;
      }
      heads := hs;
      lay := Layout(hs, seq(RINGS, _ => []), map[], map h | h in hs :: h, hs[READY]);
    }

    /** Links `x` in before the header of ring `r`. */
    method Append(r: nat, x: Link)
      requires Valid() && r < RINGS
      requires x !in lay.at && x !in heads && x != lay.front
      modifies this, x, heads[r], lay.Last(r)
      ensures Valid() && lay == old(lay).Append(r, x)
    {
      AppendSound(lay, r, x);
      LinkBefore(heads[r], x, lay.succ, lay.Last(r));
      lay := lay.Append(r, x);
    }

    /** A linked node has two neighbours among the lists' own links. */
    lemma NeighboursKnown(x: Link)
      requires Valid() && x in lay.at
      ensures x.prev in lay.Repr() && x.next in lay.Repr() && x !in heads && x != lay.front
    {
      var r, k := Around(lay, x);
    }

    /** Takes `x` out of its ring; its own pointers stay. */
    method Unlink(x: Link) returns (ghost k: nat)
      requires Valid() && x in lay.at
      modifies this, {x.prev, x.next}
      ensures Valid()
      ensures old(lay.at)[x] < |old(lay).rings| && k < |old(lay).rings[old(lay.at)[x]]| && old(lay).rings[old(lay.at)[x]][k] == x
      ensures lay == old(lay).Remove(old(lay.at)[x], k)
      ensures x.next == old(lay).Cells(old(lay.at)[x])[k + 2]
    {
      ghost var r;
      r, k := Around(lay, x);
      RemoveSound(lay, r, k);
      JoinAround(x, lay.succ);
      lay := lay.Remove(r, k);
    }

    /** Where a walk along ring `r` starts. */
    ghost function First(r: nat): Link
      requires r < |lay.heads| && r < |lay.rings|
      reads this
    {
      lay.Cells(r)[1]
    }

    lemma FirstKnown(r: nat)
      requires Valid() && r < RINGS
      ensures (if r == READY then lay.front else heads[r]).next == First(r)
      ensures First(r) == heads[r] <==> lay.rings[r] == []
      ensures lay.rings[r] != [] ==> First(r) in lay.at && lay.at[First(r)] == r && First(r) !in heads
      ensures heads[r] !in lay.at
    {
      assert Open(0);
      lay.Thread(r, 0);
      assert lay.Owned(r);
    }

    /** One round of the drain loop: the first node of a spoke moves to the end of the ready list. */
    method ShiftToReady(r: nat, node: Link) returns (next: Link)
      requires Valid() && r < READY && lay.rings[r] != [] && node == lay.rings[r][0]
      requires lay.front == heads[READY]
      modifies this, lay.Repr()
      ensures Valid() && next == First(r) && lay.front == old(lay.front)
      ensures lay.rings == old(lay).rings[r := old(lay).rings[r][1..]][READY := old(lay).rings[READY] + [node]]
      ensures lay.at == (old(lay.at) - {node})[node := READY]
    {
      FirstKnown(r);
      NeighboursKnown(node);
      ghost var k := Unlink(node);
      SoleIndex(old(lay), r, k);
      FirstKnown(r);
      assert lay.rings[r] == old(lay).rings[r][1..];
      next := node.next;
      EndsKnown(lay, READY);
      Append(READY, node);
    }

    /** Takes `x` out and clears its pointers. */
    method Discard(x: Link) returns (ghost k: nat)
      requires Valid() && x in lay.at
      modifies this, x, {x.prev, x.next}
      ensures Valid() && lay.front == old(lay.front) && lay.at == old(lay.at) - {x}
      ensures x.prev == null && x.next == null
      ensures old(lay.at)[x] < RINGS && k < |old(lay).rings[old(lay.at)[x]]| && old(lay).rings[old(lay.at)[x]][k] == x
      ensures lay.rings == old(lay).rings[old(lay.at)[x] := Drop(old(lay).rings[old(lay.at)[x]], k)]
    {
      NeighboursKnown(x);
      k := Unlink(x);
      assert lay.at == old(lay.at) - {x};
      ClosedAway(lay, x);
      x.prev, x.next := null, null;
    }

    /** Closes a header on itself; the nodes keep their pointers, so they can still be walked. */
    method Detach(r: nat)
      requires Valid() && r < READY
      modifies this, heads[r]
      ensures Valid() && lay == old(lay).Detach(r)
      ensures forall k :: 0 <= k < |old(lay).rings[r]| ==> old(lay).rings[r][k].next == old(lay).Cells(r)[k + 2]
    {
      var h := heads[r];
      DetachSound(lay, r);
      h.next, h.prev := h, h;
      lay := lay.Detach(r);
    }

    /** Cuts the nodes of spoke `r` off their header and hands them out as a chain. */
    method Cut(r: nat) returns (first: Link, ghost chain: seq<Link>)
      requires Valid() && r < READY
      modifies this, heads[r]
      ensures Valid() && chain == old(lay).rings[r] && lay.rings == old(lay).rings[r := []]
      ensures first == Start(chain, heads[r]) && Walkable(chain, heads[r]) && Distinct(chain)
      ensures forall x :: x in chain ==> x !in lay.Repr() && x in old(lay.at) && old(lay.at)[x] == r
      ensures lay.at == old(lay.at) - Elements(chain) && lay.front == old(lay.front)
      ensures forall x :: x in lay.at ==> lay.at[x] != r
      ensures heads[r] in lay.Repr() && lay.Repr() + Elements(chain) == old(lay).Repr()
    {
      chain := lay.rings[r];
      RingKnown(lay, r);
      FirstKnown(r);
      EndsKnown(lay, r);
      first := heads[r].next;
      Detach(r);
    }

    /** No pointer changes: the first ready node takes the header's part while its callback runs. */
    ghost method Pop()
      requires Valid() && lay.rings[READY] != []
      modifies this
      ensures Valid() && lay == old(lay).Pop()
    {
      PopSound(lay);
      lay := lay.Pop();
    }

    /** The drained ready list is an empty ring again. */
    method Close()
      requires Valid() && lay.rings[READY] == []
      modifies this, heads[READY]
      ensures Valid() && lay == old(lay).Close()
    {
      CloseSound(lay);
      heads[READY].next := heads[READY];
      heads[READY].prev := heads[READY];
      lay := lay.Close();
    }
  }
}
