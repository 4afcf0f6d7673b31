/** The timer itself: ticks, cascades, the ready list and the index of tasks. */
module Timers {
  import opened Words
  import opened Seals
  import opened Sequences
  import opened Spills
  import opened Links
  import opened WheelTiming
  import opened Ledgers
  import opened Obligations
  import opened Gears
  import opened Trails

  const WALK: nat := 2
  const DRAIN: nat := 4

  class Timer {
    const lists: Lists
    var spokeIndex: seq<nat>
    var checktime: nat
    var timerMap: map<nat, Link>
    /** The last reading of the millisecond clock, and the last task id issued. */
    var clock: nat
    var lastId: nat

    /** `checktime` at construction, the turns each wheel has made since, and the history. */
    ghost const start: nat
    ghost var turns: seq<nat>
    ghost var book: Ledger

    /** What holds at every step, with the nodes `hand` taken out of the lists. */
    ghost predicate Running(hand: set<Link>)
      reads this, lists, lists.lay.succ.Keys, lists.lay.succ.Values
    {
      && lists.Valid() && Meshed(spokeIndex, turns)
      && Owed(start, turns, lists.lay.at, hand, timerMap, book)
      && book.clock == clock && book.lastId == lastId
    }

    /** Between two public calls, or inside a callback. */
    ghost predicate Steady()
      reads this, lists, lists.lay.succ.Keys, lists.lay.succ.Values
    {
      Running({}) && Rest(start, spokeIndex, turns, checktime, clock) && book.own == checktime
    }

    /** Between two public calls. */
    ghost predicate Valid()
      reads this, lists, lists.lay.succ.Keys, lists.lay.succ.Values
    {
      && Steady()
      && lists.lay.rings[READY] == [] && lists.lay.front == lists.heads[READY]
    }

    constructor (now: nat)
      ensures Valid() && checktime == clock == now && book.created == book.removed == {}
      ensures book.placed == map[] && book.firedAt == map[]
      ensures fresh(lists) && fresh(lists.lay.Repr())
    {
      lists := new Lists();
      spokeIndex := [0, 0, 0, 0, 0];
      checktime, clock, lastId := now, now, 0;
      timerMap := map[];
      start := now;
      turns := [0, 0, 0, 0, 0];
      book := Ledger(map[], 0, now, now, 0, {}, map[], map[], map[], [], {}, map[], {});
      new;
      StartOwed(start, turns, book);
      assert forall w :: 0 <= w < WHEEL_NUM ==> Spokes(w, 0) == 0;
    }

    /** `get_current_millisec`: any value not below the previous one. */
    method Now() returns (now: nat)
      modifies this`clock, this`book
      ensures now == clock >= old(clock) && book == old(book).Wait(now)
    {
      var passed: int :| 0 <= passed;
      clock := clock + passed;
      book := book.Wait(clock);
      now := clock;
    }

    /** Picks wheel and spoke for `ms` from the reading `now`, and links the node in there. */
    method AddTimerNode(ms: nat, node: Link, ghost now: nat) returns (ghost ring: nat)
      requires lists.Valid() && Meshed(spokeIndex, turns)
      requires node !in lists.lay.at && node !in lists.heads && node != lists.lay.front
      requires ms / GRANULARITY < TWO_32
      requires node.dead == now + ms && Own(start, turns) <= now
      modifies lists, node, lists.lay.Repr()
      ensures lists.Valid() && ring < READY && lists.lay == old(lists.lay).Append(ring, node)
      ensures unchanged(this) && ring == Place(spokeIndex, ms) && WheelOf(ring) == SelectWheel(ms / GRANULARITY)
      ensures Slotted(start, turns, ring, node.dead, Placement(now, Own(start, turns))) && Settled(ring, node.dead, now)
    {
      var interval := ms / GRANULARITY;
      var w := SelectWheel(interval);
      var spoke := SelectSpoke(interval, w, spokeIndex[w]);
      PlacedSlotted(start, turns, spokeIndex, ms, now);
      ring := FirstRing(w) + spoke;
      EndsKnown(lists.lay, ring);
      lists.Append(FirstRing(w) + spoke, node);
    }

    /** Links a new node for `task`, due `ms` from the current clock. */
    method AddTimer(ms: nat, task: Task) returns (node: Link, ghost ring: nat)
      requires lists.Valid() && Meshed(spokeIndex, turns) && ms < TWO_32
      requires Own(start, turns) <= clock
      modifies this`clock, this`book, lists, lists.lay.Repr()
      ensures lists.Valid() && unchanged(`spokeIndex, `checktime, `timerMap, `lastId, `turns)
      ensures fresh(node) && node.task == task && node.dead == clock + ms && node.serial == old(book).serials
      ensures clock >= old(clock) && book == old(book).Wait(clock)
      ensures ring == Place(spokeIndex, ms) && ring < READY && lists.lay == old(lists.lay).Append(ring, node)
      ensures Slotted(start, turns, ring, node.dead, Placement(clock, Own(start, turns))) && Settled(ring, node.dead, clock)
    {
      var now := Now();
      node := new Link(now + ms, task, book.serials);
      ring := AddTimerNode(ms, node, now);
    }

    /** The node is the last of one ring; all else is as it was. */
    static ghost predicate JoinsRing(was: seq<seq<Link>>, ring: nat, node: Link, rings: seq<seq<Link>>) {
      ring < |was| && rings == was[ring := was[ring] + [node]]
    }

    method AddTask(interval: nat, kind: Kind) returns (id: nat, ghost node: Link)
      requires Steady() && interval < TWO_32
      modifies this, lists, lists.lay.Repr()
      ensures Steady() && fresh(lists.lay.Repr() - old(lists.lay).Repr())
      ensures JoinsRing(old(lists.lay).rings, Place(spokeIndex, interval), node, lists.lay.rings)
      ensures lists.lay.rings[READY] == old(lists.lay).rings[READY] && lists.lay.front == old(lists.lay.front)
      ensures spokeIndex == old(spokeIndex) && turns == old(turns) && checktime == old(checktime) && clock >= old(clock)
      ensures id !in old(timerMap) && timerMap == old(timerMap)[id := node]
      ensures node.task == Task(id, interval, kind) && node.dead == clock + interval && node.Entry() !in old(book).created
      ensures book == old(book).Wait(clock).Add(node.Entry()) && old(book).Leads(book)
    {
      var step: int :| 0 < step;
      id := lastId + step;
      var added := Admit(Task(id, interval, kind));
      node := added;
      timerMap, lastId, book := timerMap[id := added], id, book.Add(node.Entry());
    }

    /** The new node is linked in before the map and the history know of it. */
    method Admit(task: Task) returns (node: Link)
      requires Steady() && task.id > lastId && task.interval < TWO_32
      modifies this`clock, this`book, lists, lists.lay.Repr()
      ensures lists.Valid() && fresh(lists.lay.Repr() - old(lists.lay).Repr())
      ensures JoinsRing(old(lists.lay).rings, Place(spokeIndex, task.interval), node, lists.lay.rings)
      ensures lists.lay.rings[READY] == old(lists.lay).rings[READY] && lists.lay.front == old(lists.lay.front)
      ensures clock >= old(clock) && book == old(book).Wait(clock)
      ensures node.task == task && node.dead == clock + task.interval
      ensures Owed(start, turns, lists.lay.at, {}, timerMap[task.id := node], book.Add(node.Entry()))
      ensures old(book).Leads(book.Add(node.Entry()))
      ensures task.id !in timerMap && node.Entry() !in old(book).created
    {
      ghost var ring;
      node, ring := AddTimer(task.interval, task);
      AddOwed(start, turns, old(lists.lay.at), timerMap, old(book), clock, node, ring);
    }

    /** The node has left its ring; all others are where they were. */
    static ghost predicate Dropped(lay: Layout, node: Link, rings: seq<seq<Link>>) {
      && node in lay.at && lay.at[node] < |lay.rings|
      && exists k: nat :: k < |lay.rings[lay.at[node]]| && lay.rings[lay.at[node]][k] == node
                          && rings == lay.rings[lay.at[node] := Drop(lay.rings[lay.at[node]], k)]
    }

    method RemoveTask(id: nat)
      requires Steady()
      modifies this, lists, lists.lay.Repr()
      ensures Steady() && lists.lay.Repr() <= old(lists.lay).Repr()
      ensures id !in old(timerMap) ==> unchanged(this) && unchanged(lists)
      ensures id in old(timerMap) ==> Dropped(old(lists.lay), old(timerMap[id]), lists.lay.rings)
      ensures lists.lay.front == old(lists.lay.front)
      ensures turns == old(turns) && checktime == old(checktime) && clock == old(clock)
      ensures timerMap == old(timerMap) - {id}
      ensures book == if id in old(timerMap) then old(book).Cancel(old(timerMap[id]).Entry()) else old(book)
      ensures old(book).Leads(book)
    {
      if id in timerMap {
        var node := timerMap[id];
        MappedLinked(start, turns, lists.lay.at, timerMap, book, id);
        CancelOwed(start, turns, lists.lay.at, timerMap, book, node);
        lists.NeighboursKnown(node);
        ghost var k := lists.Discard(node);
        timerMap, book := timerMap - {id}, book.Cancel(node.Entry());
      }
    }

    /** What a callback may do to the history and to the ready list: it fires nothing, and at most
        removes ready nodes. */
    static ghost predicate Aside(was: Ledger, ready: seq<Link>, book: Ledger, left: seq<Link>) {
      && was.Leads(book) && book.order == was.order && book.firedAt == was.firedAt
      && Thinned(left, ready) && forall x :: x in ready ==> x in left || x.Entry() in book.removed
    }

    static lemma AsideSelf(was: Ledger, ready: seq<Link>, book: Ledger)
      requires was.Leads(book) && book.order == was.order && book.firedAt == was.firedAt
      ensures Aside(was, ready, book, ready)
    {
      ThinnedSelf(ready);
    }

    static lemma AsideOn(was: Ledger, ready: seq<Link>, mid: Ledger, some: seq<Link>, book: Ledger, left: seq<Link>)
      requires Aside(was, ready, mid, some) && Aside(mid, some, book, left)
      ensures Aside(was, ready, book, left)
    {
      mid.LeadsMeans(book);
      LeadsOn(was, mid, book);
      ThinnedOn(left, some, ready);
    }

    static lemma AsideDropped(was: Ledger, lay: Layout, node: Link, rings: seq<seq<Link>>, book: Ledger)
      requires |lay.rings| == RINGS && was.Leads(book) && book.order == was.order && book.firedAt == was.firedAt
      requires Dropped(lay, node, rings) && node.Entry() in book.removed
      ensures |rings| == RINGS && Aside(was, lay.rings[READY], book, rings[READY])
    {
      var r, ready := lay.at[node], lay.rings[READY];
      var k: nat :| k < |lay.rings[r]| && lay.rings[r][k] == node && rings == lay.rings[r := Drop(lay.rings[r], k)];
      if r == READY {
        ThinnedDrop(ready, k);
        forall x | x in ready
          ensures x in Drop(ready, k) || x.Entry() in book.removed
        {
          var j :| 0 <= j < |ready| && ready[j] == x;
          if j != k { assert Drop(ready, k)[if j < k then j else j - 1] == x; }
        }
      } else {
        ThinnedSelf(ready);
      }
    }

    /** The callback of `x` may be called: with that in the history, everything is in order. */
    ghost predicate Calling(x: Arming)
      reads this, lists, lists.lay.succ.Keys, lists.lay.succ.Values
    {
      && lists.Valid() && Meshed(spokeIndex, turns)
      && Owed(start, turns, lists.lay.at, {}, timerMap, book.Fire(x))
      && book.clock == clock && book.lastId == lastId
      && Rest(start, spokeIndex, turns, checktime, clock) && book.own == checktime
    }

    /** Calls the callback of `x`, which makes any number of `add_task` and `remove_task` calls. */
    method RunCallback(ghost x: Arming)
      requires Calling(x)
      modifies this, lists, lists.lay.Repr()
      ensures Steady() && fresh(lists.lay.Repr() - old(lists.lay).Repr())
      ensures Aside(old(book).Fire(x), old(lists.lay).rings[READY], book, lists.lay.rings[READY])
      ensures lists.lay.front == old(lists.lay.front) && turns == old(turns) && checktime == old(checktime)
    {
      book := book.Fire(x);
      CallBacks();
    }

    method CallBacks()
      requires Steady()
      modifies this, lists, lists.lay.Repr()
      ensures Steady() && fresh(lists.lay.Repr() - old(lists.lay).Repr())
      ensures Aside(old(book), old(lists.lay).rings[READY], book, lists.lay.rings[READY])
      ensures lists.lay.front == old(lists.lay.front) && turns == old(turns) && checktime == old(checktime)
    {
      var calls: int := *;
      AsideSelf(book, lists.lay.rings[READY], book);
      while calls > 0
        invariant Steady() && fresh(lists.lay.Repr() - old(lists.lay).Repr())
        invariant Aside(old(book), old(lists.lay).rings[READY], book, lists.lay.rings[READY])
        invariant lists.lay.front == old(lists.lay.front) && turns == old(turns) && checktime == old(checktime)
      {
        ghost var before, ready := book, lists.lay.rings[READY];
        CallBack();
        AsideOn(old(book), old(lists.lay).rings[READY], before, ready, book, lists.lay.rings[READY]);
        calls := calls - 1;
      }
    }

    /** One call that a callback makes. */
    method CallBack()
      requires Steady()
      modifies this, lists, lists.lay.Repr()
      ensures Steady() && fresh(lists.lay.Repr() - old(lists.lay).Repr())
      ensures Aside(old(book), old(lists.lay).rings[READY], book, lists.lay.rings[READY])
      ensures lists.lay.front == old(lists.lay.front) && turns == old(turns) && checktime == old(checktime)
    {
      if * {
        var interval: int :| 0 <= interval < TWO_32;
        var circle: bool := *;
        var id, node := AddTask(interval, if circle then Circle else Once);
        AsideSelf(old(book), lists.lay.rings[READY], book);
      } else {
        var id: int :| 0 <= id;
        RemoveTask(id);
        if id in old(timerMap) {
          AsideDropped(old(book), old(lists.lay), old(timerMap[id]), lists.lay.rings, book);
        } else {
          AsideSelf(old(book), lists.lay.rings[READY], book);
        }
      }
    }

    /** How far the drain of the list `ready` has come: what has fired since and what is left to fire
        are `ready` in its order, without the nodes that callbacks have removed. */
    static ghost predicate Draining(was: Ledger, ready: seq<Link>, book: Ledger, left: seq<Link>) {
      DrainSeal(was, ready, book, left).Kept?
    }

    static ghost predicate DrainedTo(was: Ledger, ready: seq<Link>, book: Ledger, left: seq<Link>) {
      && was.Leads(book) && was.order <= book.order
      && Thinned(book.order[|was.order|..] + Entries(left), Entries(ready))
      && (forall x :: x in ready ==> x in left || x.Entry() in book.firedAt || x.Entry() in book.removed)
      && (forall e :: e in book.firedAt && e !in was.firedAt ==> e in Entries(ready))
      && ((left == ready && book == was) || (ready != [] && ready[0].Entry() in book.firedAt))
    }

    static ghost function DrainSeal(was: Ledger, ready: seq<Link>, book: Ledger, left: seq<Link>): Seal {
      if forall k: nat {:trigger Key(DRAIN, k)} :: Key(DRAIN, k) ==> DrainedTo(was, ready, book, left) then Kept else Broken
    }

    /** Fires every ready node, the last ones added included, first come first served; callbacks can
        only take nodes out of the list. */
    method DoTimeoutCallback()
      requires Steady() && lists.lay.front == lists.heads[READY]
      modifies this, lists, lists.lay.Repr()
      ensures Valid() && fresh(lists.lay.Repr() - old(lists.lay).Repr())
      ensures DrainedTo(old(book), old(lists.lay).rings[READY], book, [])
      ensures turns == old(turns) && checktime == old(checktime)
    {
      lists.FirstKnown(READY);
      ghost var ready := lists.lay.rings[READY];
      DrainingStart(book, ready);
      var link := lists.heads[READY].next;
      while link != lists.heads[READY]
        invariant Steady() && fresh(lists.lay.Repr() - old(lists.lay).Repr())
        invariant link == lists.First(READY)
        invariant Draining(old(book), ready, book, lists.lay.rings[READY])
        invariant turns == old(turns) && checktime == old(checktime)
        decreases |lists.lay.rings[READY]|
      {
        lists.FirstKnown(READY);
        ghost var before, left := book, lists.lay.rings[READY];
        link := FireNext(link);
        DrainingNext(old(book), ready, before, left, book, lists.lay.rings[READY]);
      }
      lists.FirstKnown(READY);
      lists.Close();
      assert Key(DRAIN, 0);
    }

    static lemma DrainingStart(was: Ledger, ready: seq<Link>)
      ensures Draining(was, ready, was, ready)
    {
      LeadsSelf(was);
      assert was.order[|was.order|..] + Entries(ready) == Entries(ready);
      ThinnedSelf(Entries(ready));
    }

    /** The first node of `ready` has fired, and then its callback has run. */
    static ghost predicate FiredFirst(was: Ledger, ready: seq<Link>, book: Ledger, left: seq<Link>) {
      && ready != [] && was.Leads(book) && book.order == was.order + [ready[0].Entry()]
      && book.firedAt.Keys == was.firedAt.Keys + {ready[0].Entry()} && Thinned(left, ready[1..])
      && forall x :: x in ready[1..] ==> x in left || x.Entry() in book.removed
    }

    static lemma DrainingNext(was: Ledger, ready: seq<Link>, mid: Ledger, some: seq<Link>, book: Ledger, left: seq<Link>)
      requires Draining(was, ready, mid, some) && FiredFirst(mid, some, book, left)
      ensures Draining(was, ready, book, left) && |left| < |some|
    {
      assert DrainedTo(was, ready, mid, some) by { assert Key(DRAIN, 0); }
      ThinnedIn(left, some[1..]);
      LeadsOn(was, mid, book);
      OrderNext(was, ready, mid, some, book, left);
      FateNext(was, ready, mid, some, book, left);
      mid.LeadsMeans(book);
    }

    static lemma OrderNext(was: Ledger, ready: seq<Link>, mid: Ledger, some: seq<Link>, book: Ledger, left: seq<Link>)
      requires DrainedTo(was, ready, mid, some) && FiredFirst(mid, some, book, left)
      ensures was.order <= book.order && some[0].Entry() in Entries(ready)
      ensures Thinned(book.order[|was.order|..] + Entries(left), Entries(ready))
    {
      EntriesThinned(left, some[1..]);
      assert Entries(some)[1..] == Entries(some[1..]);
      var fired := mid.order[|was.order|..];
      ThinnedPassed(fired, Entries(left), Entries(some), Entries(ready));
      assert book.order[|was.order|..] == fired + [some[0].Entry()];
    }

    static lemma FateNext(was: Ledger, ready: seq<Link>, mid: Ledger, some: seq<Link>, book: Ledger, left: seq<Link>)
      requires DrainedTo(was, ready, mid, some) && FiredFirst(mid, some, book, left)
      ensures forall x :: x in ready ==> x in left || x.Entry() in book.firedAt || x.Entry() in book.removed
    {
      mid.LeadsMeans(book);
      forall x | x in ready
        ensures x in left || x.Entry() in book.firedAt || x.Entry() in book.removed
      {
        if x in some { assert x == some[0] || x in some[1..]; }
      }
    }

    static lemma {:induction false} EntriesThinned(a: seq<Link>, b: seq<Link>)
      requires Thinned(a, b)
      ensures Thinned(Entries(a), Entries(b))
      decreases |b|
    {
      if b != [] {
        assert Entries(b)[1..] == Entries(b[1..]);
        if Thinned(a, b[1..]) {
          EntriesThinned(a, b[1..]);
        } else {
          EntriesThinned(a[1..], b[1..]);
          assert Entries(a)[1..] == Entries(a[1..]);
        }
      }
    }

    /** One round of the drain loop. */
    method FireNext(node: Link) returns (next: Link)
      requires Steady() && lists.lay.rings[READY] != [] && node == lists.lay.rings[READY][0]
      modifies this, lists, lists.lay.Repr()
      ensures Steady() && fresh(lists.lay.Repr() - old(lists.lay).Repr())
      ensures FiredFirst(old(book), old(lists.lay).rings[READY], book, lists.lay.rings[READY])
      ensures next == lists.First(READY) && turns == old(turns) && checktime == old(checktime)
    {
      if node.task.kind == Circle {
        var renewed := FireCircle(node);
      } else {
        FireOnce(node);
      }
      ghost var fired := book.Fire(node.Entry());
      RunCallback(node.Entry());
      LeadsOn(old(book), fired, book);
      lists.FirstKnown(READY);
      next := node.next;
    }

    /** The first ready node is gone. */
    static ghost function Popped(rings: seq<seq<Link>>): seq<seq<Link>>
      requires |rings| == RINGS && rings[READY] != []
    {
      rings[READY := rings[READY][1..]]
    }

    /** A circular task is armed anew, from the current clock, under its own id. */
    method FireCircle(node: Link) returns (next: Link)
      requires Steady() && lists.lay.rings[READY] != [] && node == lists.lay.rings[READY][0] && node.task.kind == Circle
      modifies this, lists, lists.lay.Repr()
      ensures Calling(node.Entry()) && fresh(lists.lay.Repr() - old(lists.lay).Repr())
      ensures JoinsRing(Popped(old(lists.lay).rings), Place(spokeIndex, node.task.interval), next, lists.lay.rings)
      ensures lists.lay.rings[READY] == old(lists.lay).rings[READY][1..] && lists.lay.front == node
      ensures spokeIndex == old(spokeIndex) && turns == old(turns) && checktime == old(checktime)
      ensures clock >= old(clock) && book == old(book).Wait(clock).Arm(next.Entry())
      ensures old(book).Leads(book.Fire(node.Entry()))
      ensures timerMap == old(timerMap)[node.task.id := next]
      ensures next.task == node.task && next.dead == clock + node.task.interval
    {
      ghost var ring;
      next, ring := Rearm(node);
      timerMap, book := timerMap[node.task.id := next], book.Arm(next.Entry());
    }

    /** The new node is linked in before the map and the history know of it. */
    method Rearm(node: Link) returns (next: Link, ghost ring: nat)
      requires Steady() && lists.lay.rings[READY] != [] && node == lists.lay.rings[READY][0] && node.task.kind == Circle
      modifies this`clock, this`book, lists, lists.lay.Repr()
      ensures lists.Valid() && fresh(lists.lay.Repr() - old(lists.lay).Repr())
      ensures JoinsRing(Popped(old(lists.lay).rings), Place(spokeIndex, node.task.interval), next, lists.lay.rings)
      ensures lists.lay.rings[READY] == old(lists.lay).rings[READY][1..] && lists.lay.front == node
      ensures clock >= old(clock) && book == old(book).Wait(clock)
      ensures next.task == node.task && next.dead == clock + node.task.interval
      ensures Owed(start, turns, lists.lay.at, {}, timerMap[node.task.id := next], book.Renew(node.Entry(), next.Entry()))
      ensures old(book).Leads(book.Renew(node.Entry(), next.Entry()))
    {
      lists.FirstKnown(READY);
      PendingKnown(start, turns, lists.lay.at, {}, timerMap, book, node);
      ghost var at := lists.lay.at;
      lists.Pop();
      next, ring := AddTimer(node.task.interval, node.task);
      RenewOwed(start, turns, at, timerMap, old(book), clock, node, next, ring);
    }

    /** A one-shot task leaves the map. */
    method FireOnce(node: Link)
      requires Steady() && lists.lay.rings[READY] != [] && node == lists.lay.rings[READY][0] && node.task.kind == Once
      modifies this, lists, lists.lay.Repr()
      ensures Calling(node.Entry()) && fresh(lists.lay.Repr() - old(lists.lay).Repr())
      ensures lists.lay.rings == Popped(old(lists.lay).rings) && lists.lay.front == node
      ensures turns == old(turns) && checktime == old(checktime) && clock == old(clock)
      ensures book == old(book).Leave(node.Entry()) && old(book).Leads(book.Fire(node.Entry()))
      ensures timerMap == old(timerMap) - {node.task.id}
    {
      lists.FirstKnown(READY);
      RetireOwed(start, turns, lists.lay.at, timerMap, book, node);
      lists.Pop();
      timerMap, book := timerMap - {node.task.id}, book.Leave(node.Entry());
    }

    /** The rings when `k` nodes of spoke `r` have moved to the end of the ready list. */
    static ghost function Shifted(rings: seq<seq<Link>>, r: nat, k: nat): seq<seq<Link>>
      requires r < READY < |rings| && k <= |rings[r]|
    {
      rings[r := rings[r][k..]][READY := rings[READY] + rings[r][..k]]
    }

    static lemma ShiftedNone(rings: seq<seq<Link>>, r: nat)
      requires r < READY < |rings|
      ensures Shifted(rings, r, 0) == rings
    {
      assert rings[r][0..] == rings[r] && rings[READY] + rings[r][..0] == rings[READY];
    }

    static lemma ShiftedAll(rings: seq<seq<Link>>, r: nat)
      requires r < READY < |rings|
      ensures Shifted(rings, r, |rings[r]|) == rings[r := []][READY := rings[READY] + rings[r]]
    {
      assert rings[r][|rings[r]|..] == [] && rings[r][..|rings[r]|] == rings[r];
    }

    static lemma ShiftedNext(rings: seq<seq<Link>>, r: nat, k: nat)
      requires r < READY < |rings| && k < |rings[r]|
      ensures var s := Shifted(rings, r, k);
              s[r] == rings[r][k..] && s[r := s[r][1..]][READY := s[READY] + [s[r][0]]] == Shifted(rings, r, k + 1)
    {
      assert rings[r][k..][1..] == rings[r][k + 1..];
      assert rings[READY] + rings[r][..k + 1] == rings[READY] + rings[r][..k] + [rings[r][k]];
    }

    /** Empties the spoke wheel 0 stands at into the ready list, in its order. */
    method Drain()
      requires Running({}) && Rest(start, spokeIndex, turns, checktime, clock) && lists.lay.front == lists.heads[READY]
      requires book.own == Own(start, turns) + GRANULARITY
      modifies lists, lists.lay.Repr()
      ensures Running({}) && lists.lay.front == lists.heads[READY] && lists.lay.Repr() <= old(lists.lay).Repr()
      ensures unchanged(this)
      ensures lists.lay.rings == Shifted(old(lists.lay).rings, turns[0] % 256, |old(lists.lay).rings[turns[0] % 256]|)
      ensures lists.lay.rings[turns[0] % 256] == []
    {
      var spoke := lists.heads[spokeIndex[0]];
      ghost var r, rings := turns[0] % 256, lists.lay.rings;
      lists.FirstKnown(r);
      var link := spoke.next;
      ghost var k := 0;
      ShiftedNone(rings, r);
      while link != spoke
        invariant Running({}) && lists.lay.front == lists.heads[READY] && lists.lay.Repr() <= old(lists.lay).Repr()
        invariant link == lists.First(r) && unchanged(this)
        invariant k <= |rings[r]| && lists.lay.rings == Shifted(rings, r, k)
        decreases |lists.lay.rings[r]|
      {
        lists.FirstKnown(r);
        DrainOwed(start, turns, lists.lay.at, timerMap, book, link);
        ShiftedNext(rings, r, k);
        link := lists.ShiftToReady(spokeIndex[0], link);
        k := k + 1;
      }
      lists.FirstKnown(r);
    }

    /** Puts one node that a cascade took off its spoke where the clock reading `now` says. */
    method Rehang(node: Link, now: nat, ghost hand: set<Link>, ghost w: nat) returns (ghost ring: nat)
      requires Running(hand) && lists.lay.front == lists.heads[READY] && node in hand
      requires node !in lists.heads && now == clock && book.own == Own(start, turns)
      requires now < node.dead ==> SelectWheel((node.dead - now) / GRANULARITY) <= w
      modifies this`book, lists, node, lists.lay.Repr()
      ensures Running(hand - {node}) && lists.lay.front == lists.heads[READY]
      ensures book == (if node.dead <= now then old(book) else old(book).Replace(node.Entry())) && old(book).Leads(book)
      ensures lists.lay.Repr() <= old(lists.lay).Repr() + {node}
      ensures lists.lay.at == old(lists.lay.at)[node := ring]
      ensures JoinsRing(old(lists.lay).rings, ring, node, lists.lay.rings) && Rehung(node, ring, now, w, spokeIndex)
    {
      PendingKnown(start, turns, lists.lay.at, hand, timerMap, book, node);
      HandApart(start, turns, lists.lay.at, hand, timerMap, book);
      ghost var at := lists.lay.at;
      if node.dead <= now {
        EndsKnown(lists.lay, READY);
        ReadyOwed(start, turns, at, hand, timerMap, book, node);
        lists.Append(READY, node);
        ring := READY;
      } else {
        ring := AddTimerNode(node.dead - now, node, now);
        PutOwed(start, turns, at, hand, timerMap, book, node, ring);
        book := book.Replace(node.Entry());
      }
    }

    /** Of the first `k` nodes those that are not due have been placed anew, now. */
    static ghost predicate PlacedAnew(was: Ledger, nodes: seq<Link>, k: nat, book: Ledger)
      requires k <= |nodes|
    {
      && book == was.(placed := book.placed) && was.Leads(book)
      && forall j :: 0 <= j < k && was.clock < nodes[j].dead ==>
           nodes[j].Entry() in book.placed && book.placed[nodes[j].Entry()] == Placement(was.clock, was.own)
    }

    static lemma PlacedNext(was: Ledger, nodes: seq<Link>, k: nat, mid: Ledger, book: Ledger)
      requires k < |nodes| && PlacedAnew(was, nodes, k, mid) && mid.Leads(book)
      requires book == if nodes[k].dead <= was.clock then mid else mid.Replace(nodes[k].Entry())
      ensures PlacedAnew(was, nodes, k + 1, book)
    {
      LeadsOn(was, mid, book);
    }

    /** The first `k` nodes are linked again where they should be. */
    static ghost predicate Landed(nodes: seq<Link>, k: nat, at: map<Link, nat>, now: nat, w: nat, spokes: seq<nat>)
      requires k <= |nodes| && |spokes| == WHEEL_NUM
    {
      forall j :: 0 <= j < k ==> nodes[j] in at && Rehung(nodes[j], at[nodes[j]], now, w, spokes)
    }

    static lemma LandedNext(nodes: seq<Link>, k: nat, at: map<Link, nat>, ring: nat, now: nat, w: nat, spokes: seq<nat>)
      requires |spokes| == WHEEL_NUM && k < |nodes| && Landed(nodes, k, at, now, w, spokes) && Distinct(nodes)
      requires Rehung(nodes[k], ring, now, w, spokes)
      ensures Landed(nodes, k + 1, at[nodes[k] := ring], now, w, spokes)
    {
    }

    /** Ready exactly if due, else in the spoke for what is left, in a wheel not above `w`. */
    static ghost predicate Rehung(x: Link, ring: nat, now: nat, w: nat, spokes: seq<nat>)
      requires |spokes| == WHEEL_NUM
    {
      && ring == Spot(spokes, x.dead, now)
      && if x.dead <= now then ring == READY else ring < READY && WheelOf(ring) <= w
    }

    /** What the first `k` nodes have come to: history, places and lists. */
    static ghost predicate Hung(was: Ledger, rings: seq<seq<Link>>, chain: seq<Link>, k: nat, book: Ledger,
                                at: map<Link, nat>, now': seq<seq<Link>>, now: nat, w: nat, spokes: seq<nat>) {
      HungSeal(was, rings, chain, k, book, at, now', now, w, spokes).Kept?
    }

    static ghost function HungSeal(was: Ledger, rings: seq<seq<Link>>, chain: seq<Link>, k: nat, book: Ledger,
                                   at: map<Link, nat>, now': seq<seq<Link>>, now: nat, w: nat, spokes: seq<nat>): Seal {
      if forall i: nat {:trigger Key(WALK, i)} :: Key(WALK, i) ==>
        && k <= |chain| && |spokes| == WHEEL_NUM
        && PlacedAnew(was, chain, k, book) && Landed(chain, k, at, now, w, spokes) && Joined(rings, chain[..k], at, now')
      then Kept else Broken
    }

    static lemma HungStart(was: Ledger, rings: seq<seq<Link>>, chain: seq<Link>, at: map<Link, nat>, now: nat, w: nat,
                           spokes: seq<nat>)
      requires |spokes| == WHEEL_NUM
      ensures Hung(was, rings, chain, 0, was, at, rings, now, w, spokes)
    {
      assert chain[..0] == [];
      JoinedNone(rings, at);
      LeadsSelf(was);
    }

    static lemma HungNext(was: Ledger, rings: seq<seq<Link>>, chain: seq<Link>, k: nat, book: Ledger,
                          at: map<Link, nat>, mid: seq<seq<Link>>, now: nat, w: nat, spokes: seq<nat>,
                          later: Ledger, ring: nat, after: seq<seq<Link>>)
      requires k < |chain| && Distinct(chain) && Hung(was, rings, chain, k, book, at, mid, now, w, spokes)
      requires book.Leads(later) && later == if chain[k].dead <= was.clock then book else book.Replace(chain[k].Entry())
      requires |spokes| == WHEEL_NUM && Rehung(chain[k], ring, now, w, spokes) && JoinsRing(mid, ring, chain[k], after)
      ensures Hung(was, rings, chain, k + 1, later, at[chain[k] := ring], after, now, w, spokes)
    {
      assert Key(WALK, 0);
      PlacedNext(was, chain, k, book, later);
      LandedNext(chain, k, at, ring, now, w, spokes);
      JoinedNext(rings, chain, k, at, mid, ring, at[chain[k] := ring], after);
    }

    static lemma HungAll(was: Ledger, rings: seq<seq<Link>>, chain: seq<Link>, book: Ledger,
                         at: map<Link, nat>, now': seq<seq<Link>>, now: nat, w: nat, spokes: seq<nat>)
      requires Hung(was, rings, chain, |chain|, book, at, now', now, w, spokes)
      ensures |spokes| == WHEEL_NUM && PlacedAnew(was, chain, |chain|, book)
      ensures Landed(chain, |chain|, at, now, w, spokes) && Joined(rings, chain, at, now')
    {
      assert Key(WALK, 0);
      assert chain[..|chain|] == chain;
    }

    /** Walks the chain cut off by a cascade of wheel `w`. No node climbs to a higher wheel. */
    method Redistribute(first: Link, head: Link, now: nat, ghost chain: seq<Link>, ghost w: nat)
      requires Running(Elements(chain)) && lists.lay.front == lists.heads[READY]
      requires head in lists.heads && first == Start(chain, head) && Walkable(chain, head) && Distinct(chain)
      requires forall x :: x in chain ==> x !in lists.lay.Repr()
      requires now == clock && book.own == Own(start, turns)
      requires forall x :: x in chain && now < x.dead ==> SelectWheel((x.dead - now) / GRANULARITY) <= w
      modifies this`book, lists, lists.lay.Repr(), Elements(chain)
      ensures Running({}) && lists.lay.front == lists.heads[READY]
      ensures PlacedAnew(old(book), chain, |chain|, book)
      ensures lists.lay.Repr() <= old(lists.lay).Repr() + Elements(chain)
      ensures Landed(chain, |chain|, lists.lay.at, now, w, spokeIndex)
      ensures Joined(old(lists.lay).rings, chain, lists.lay.at, lists.lay.rings)
    {
      var link := first;
      ghost var k, was, repr, rings := 0, book, lists.lay.Repr(), lists.lay.rings;
      WalkStart(chain, head, now, w);
      while link != head
        invariant k <= |chain| && link == (if k < |chain| then chain[k] else head)
        invariant Walking(chain, k, head, now, w, was, rings)
        invariant lists.lay.Repr() <= repr + Elements(chain) && head in lists.heads
        decreases |chain| - k
      {
        link := RehangNext(link, head, now, chain, k, w, was, rings);
        k := k + 1;
      }
      assert Key(WALK, 0);
      assert k == |chain| && Elements(chain[k..]) == {};
      HungAll(was, rings, chain, book, lists.lay.at, lists.lay.rings, now, w, spokeIndex);
    }

    /** The state of the walk when `k` nodes are hung again. */
    ghost predicate Walking(chain: seq<Link>, k: nat, head: Link, now: nat, w: nat, was: Ledger, rings: seq<seq<Link>>)
      requires k <= |chain|
      reads this, lists, lists.lay.succ.Keys, lists.lay.succ.Values, chain
    {
      WalkSeal(chain, k, head, now, w, was, rings).Kept?
    }

    ghost function WalkSeal(chain: seq<Link>, k: nat, head: Link, now: nat, w: nat, was: Ledger, rings: seq<seq<Link>>): Seal
      requires k <= |chain|
      reads this, lists, lists.lay.succ.Keys, lists.lay.succ.Values, chain
    {
      if forall i: nat {:trigger Key(WALK, i)} :: Key(WALK, i) ==>
        && Running(Elements(chain[k..])) && lists.lay.front == lists.heads[READY] && Distinct(chain)
        && |spokeIndex| == WHEEL_NUM
        && Hung(was, rings, chain, k, book, lists.lay.at, lists.lay.rings, now, w, spokeIndex)
        && now == clock == was.clock && book.own == Own(start, turns)
        && (forall j :: k <= j < |chain| ==> chain[j] !in lists.lay.Repr() && chain[j] !in lists.heads)
        && (forall j :: k <= j < |chain| && now < chain[j].dead ==> SelectWheel((chain[j].dead - now) / GRANULARITY) <= w)
        && (forall j :: k <= j < |chain| ==> chain[j].next == (if j + 1 < |chain| then chain[j + 1] else head))
      then Kept else Broken
    }

    lemma WalkStart(chain: seq<Link>, head: Link, now: nat, w: nat)
      requires Running(Elements(chain)) && lists.lay.front == lists.heads[READY] && Walkable(chain, head) && Distinct(chain)
      requires forall x :: x in chain ==> x !in lists.lay.Repr()
      requires now == clock && book.own == Own(start, turns)
      requires forall x :: x in chain && now < x.dead ==> SelectWheel((x.dead - now) / GRANULARITY) <= w
      ensures Walking(chain, 0, head, now, w, book, lists.lay.rings)
    {
      assert chain[0..] == chain;
      HungStart(book, lists.lay.rings, chain, lists.lay.at, now, w, spokeIndex);
      forall j | 0 <= j < |chain|
        ensures chain[j] !in lists.lay.Repr() && chain[j] !in lists.heads
        ensures now < chain[j].dead ==> SelectWheel((chain[j].dead - now) / GRANULARITY) <= w
      {
        assert chain[j] in chain;
      }
      assert Elements(chain[0..]) == Elements(chain);
      assert Running(Elements(chain[0..]));
    }

    /** One round of the walk. */
    method RehangNext(node: Link, head: Link, now: nat, ghost chain: seq<Link>, ghost k: nat, ghost w: nat,
                      ghost was: Ledger, ghost rings: seq<seq<Link>>)
      returns (next: Link)
      requires k < |chain| && node == chain[k] && Walking(chain, k, head, now, w, was, rings)
      modifies this`book, lists, lists.lay.Repr(), node
      ensures next == (if k + 1 < |chain| then chain[k + 1] else head)
      ensures Walking(chain, k + 1, head, now, w, was, rings)
      ensures lists.lay.Repr() <= old(lists.lay).Repr() + {node}
    {
      assert Key(WALK, 0);
      assert chain[k].next == (if k + 1 < |chain| then chain[k + 1] else head);
      next := node.next;
      ghost var before, at, mid := book, lists.lay.at, lists.lay.rings;
      assert node in Elements(chain[k..]);
      EndsKnown(lists.lay, READY);
      ghost var ring := Rehang(node, now, Elements(chain[k..]), w);
      HungNext(was, rings, chain, k, before, at, mid, now, w, spokeIndex, book, ring, lists.lay.rings);
      ElementsTail(chain, k);
    }

    /** The spokes have been emptied in this order, with readings from `early` to `late`. */
    static ghost predicate Emptied(was: seq<seq<Link>>, spokes: seq<nat>, lay: Layout, early: nat, late: nat) {
      Spilled(was, spokes, lay.at, lay.rings) && Routed(was, spokes, lay.at, early, late)
    }

    static lemma LandedTurned(rings: seq<seq<Link>>, q: nat, w: nat, lay: Layout, early: nat, now: nat, spokes: seq<nat>)
      requires |spokes| == WHEEL_NUM && q < |rings| && q < READY && WheelOf(q) == w && early <= now
      requires Landed(rings[q], |rings[q]|, lay.at, now, w, spokes)
      requires Joined(rings[q := []], rings[q], lay.at, lay.rings)
      ensures Turned(rings, q, w, lay, early, now)
    {
      SpilledOne(rings, q, lay.at, lay.rings);
      LandedRoutes(rings[q], lay.at, now, w, spokes, early);
    }

    /** Turns wheel `w`, and the next one when it comes round. */
    method Cascade(w: nat)
      requires 1 <= w <= WHEEL_NUM
      requires Running({}) && lists.lay.front == lists.heads[READY] && Geared(spokeIndex, turns, w)
      requires w < WHEEL_NUM ==> Turns(w, turns[0])
      requires book.own == Own(start, turns)
      modifies this`book, this`clock, this`spokeIndex, this`turns, lists, lists.lay.Repr()
      ensures Running({}) && lists.lay.front == lists.heads[READY] && Geared(spokeIndex, turns, WHEEL_NUM)
      ensures turns[0] == old(turns[0]) && clock >= old(clock)
      ensures Emptied(old(lists.lay).rings, Opened(old(spokeIndex), w), lists.lay, old(clock), clock)
      ensures book == old(book).(clock := clock, placed := book.placed) && old(book).Leads(book)
      ensures lists.lay.Repr() <= old(lists.lay).Repr()
      decreases WHEEL_NUM - w, 2
    {
      if w >= WHEEL_NUM {
        SpilledNone(lists.lay.rings, lists.lay.at);
        RoutedNone(lists.lay.rings, lists.lay.at, clock, clock);
        return;
      }
      ghost var rings, spokes, early := lists.lay.rings, spokeIndex, clock;
      TurnGeared(w);
      ghost var turned := book;
      CascadeRest(w, rings, spokes, early);
      LeadsOn(old(book), turned, book);
    }

    /** A cascade from where wheel `w` has turned, at `spokes`, with the lists as `rings` before. */
    method CascadeRest(w: nat, ghost rings: seq<seq<Link>>, ghost spokes: seq<nat>, ghost early: nat)
      requires 1 <= w < WHEEL_NUM && Running({}) && lists.lay.front == lists.heads[READY] && book.own == Own(start, turns)
      requires |spokes| == WHEEL_NUM && spokeIndex == spokes[w := spokes[w] + 1]
      requires if spokeIndex[w] < Size(w) then Geared(spokeIndex, turns, WHEEL_NUM)
               else Geared(spokeIndex[w := 0], turns, w + 1) && (w + 1 < WHEEL_NUM ==> Turns(w + 1, turns[0]))
      requires |rings| == RINGS && early <= clock && Turned(rings, FirstRing(w) + spokes[w], w, lists.lay, early, clock)
      modifies this`book, this`clock, this`spokeIndex, this`turns, lists, lists.lay.Repr()
      ensures Running({}) && lists.lay.front == lists.heads[READY] && Geared(spokeIndex, turns, WHEEL_NUM)
      ensures turns[0] == old(turns[0]) && clock >= old(clock)
      ensures Emptied(rings, Opened(spokes, w), lists.lay, early, clock)
      ensures book == old(book).(clock := clock, placed := book.placed) && old(book).Leads(book)
      ensures lists.lay.Repr() <= old(lists.lay).Repr()
      decreases WHEEL_NUM - w, 1
    {
      ghost var q, mid, middle := FirstRing(w) + spokes[w], lists.lay, clock;
      if spokeIndex[w] >= Size(w) {
        OpenedSame(spokes, spokeIndex, w + 1);
        ComeRound(w);
        CascadeOn(rings, q, w, mid, Opened(spokes, w + 1), lists.lay, early, middle, clock);
      } else {
        LeadsSelf(book);
        TurnedAlone(rings, q, w, lists.lay, early, clock);
        assert [q] + [] == [q];
      }
    }

    static lemma LandedRoutes(chain: seq<Link>, at: map<Link, nat>, now: nat, w: nat, spokes: seq<nat>, early: nat)
      requires |spokes| == WHEEL_NUM && Landed(chain, |chain|, at, now, w, spokes) && early <= now
      ensures Routes(chain, at, early, now) && Below(chain, at, w)
    {
      forall x | x in chain
        ensures x in at && Rehung(x, at[x], now, w, spokes)
      {
        var j :| 0 <= j < |chain| && chain[j] == x;
      }
    }

    method TurnGeared(w: nat)
      requires 1 <= w < WHEEL_NUM
      requires Running({}) && lists.lay.front == lists.heads[READY] && Geared(spokeIndex, turns, w)
      requires Turns(w, turns[0]) && book.own == Own(start, turns)
      modifies this`book, this`clock, this`spokeIndex, this`turns, lists, lists.lay.Repr()
      ensures Running({}) && lists.lay.front == lists.heads[READY]
      ensures spokeIndex == old(spokeIndex)[w := old(spokeIndex)[w] + 1] && turns[0] == old(turns[0])
      ensures if spokeIndex[w] < Size(w) then Geared(spokeIndex, turns, WHEEL_NUM)
              else Geared(spokeIndex[w := 0], turns, w + 1) && (w + 1 < WHEEL_NUM ==> Turns(w + 1, turns[0]))
      ensures Turned(old(lists.lay).rings, FirstRing(w) + old(spokeIndex)[w], w, lists.lay, old(clock), clock)
      ensures clock >= old(clock) && book == old(book).(clock := clock, placed := book.placed) && old(book).Leads(book)
      ensures lists.lay.Repr() <= old(lists.lay).Repr()
    {
      ghost var spokes, turned := spokeIndex[w := spokeIndex[w] + 1], turns[w := turns[w] + 1];
      GearedTurn(spokeIndex, turns, w, spokes, turned);
      TurnWheel(w, spokes, turned);
    }

    /** The part of a cascade that concerns wheel `w` alone. */
    method TurnWheel(w: nat, ghost spokes: seq<nat>, ghost turned: seq<nat>)
      requires 1 <= w < WHEEL_NUM
      requires Running({}) && lists.lay.front == lists.heads[READY] && spokeIndex[w] < 64
      requires spokes == spokeIndex[w := spokeIndex[w] + 1] && turned == turns[w := turns[w] + 1]
      requires Meshed(spokes, turned) && book.own == Own(start, turns)
      modifies this`book, this`clock, this`spokeIndex, this`turns, lists, lists.lay.Repr()
      ensures Running({}) && lists.lay.front == lists.heads[READY]
      ensures spokeIndex == spokes && turns == turned
      ensures Turned(old(lists.lay).rings, FirstRing(w) + old(spokeIndex)[w], w, lists.lay, old(clock), clock)
      ensures clock >= old(clock) && book == old(book).(clock := clock, placed := book.placed) && old(book).Leads(book)
      ensures lists.lay.Repr() <= old(lists.lay).Repr()
    {
      var now := Now();
      WaitOwed(start, turns, lists.lay.at, {}, timerMap, old(book), now);
      assert lists.Valid() && Running({});
      var first, head, chain := CutSpoke(w, spokes, turned);
      ghost var waited := book;
      Redistribute(first, head, now, chain, w);
      RingIndex(w, old(spokeIndex)[w]);
      LandedTurned(old(lists.lay).rings, FirstRing(w) + old(spokeIndex)[w], w, lists.lay, old(clock), now, spokeIndex);
      LeadsOn(old(book), waited, book);
    }

    /** Takes the nodes off the spoke wheel `w` stands at, and advances the wheel. */
    method CutSpoke(w: nat, ghost spokes: seq<nat>, ghost turned: seq<nat>)
      returns (first: Link, head: Link, ghost chain: seq<Link>)
      requires 1 <= w < WHEEL_NUM
      requires Running({}) && lists.lay.front == lists.heads[READY] && spokeIndex[w] < 64
      requires spokes == spokeIndex[w := spokeIndex[w] + 1] && turned == turns[w := turns[w] + 1]
      requires Meshed(spokes, turned)
      modifies this`spokeIndex, this`turns, lists, lists.lay.Repr()
      ensures Running(Elements(chain)) && lists.lay.front == lists.heads[READY]
      ensures var q := FirstRing(w) + old(spokeIndex)[w];
              q < READY && chain == old(lists.lay).rings[q] && lists.lay.rings == old(lists.lay).rings[q := []]
      ensures head in lists.heads && first == Start(chain, head)
      ensures Walkable(chain, head)
      ensures Distinct(chain)
      ensures forall x :: x in chain ==> x !in lists.lay.Repr()
      ensures forall x :: x in chain && clock < x.dead ==> SelectWheel((x.dead - clock) / GRANULARITY) <= w
      ensures spokeIndex == spokes && turns == turned
      ensures lists.lay.Repr() + Elements(chain) <= old(lists.lay).Repr()
    {
      var ring := FirstRing(w) + spokeIndex[w];
      RingIndex(w, spokeIndex[w]);
      SpokePassed(w, spokeIndex, turns);
      ghost var at, passed := lists.lay.at, turns;
      spokeIndex := spokeIndex[w := spokeIndex[w] + 1];
      turns := turned;
      head := lists.heads[ring];
      assert Meshed(spokeIndex, turns);
      first, chain := lists.Cut(ring);
      assert lists.Valid() && Meshed(spokeIndex, turns);
      SettledRing(start, passed, at, timerMap, book, chain, ring);
      HoldOwed(start, passed, at, timerMap, book, Elements(chain));
      TurnOwed(start, passed, turns, lists.lay.at, Elements(chain), timerMap, book, w);
      assert book.clock == clock && book.lastId == lastId;
    }

    /** The lists, the spokes and the clock as they are. */
    ghost function Shot(): Stage
      reads this, lists
    {
      Stage(lists.lay.rings, lists.lay.at, spokeIndex, clock)
    }

    /** One tick: the spoke wheel 0 stands at is drained, and the wheels turn. */
    method Tick()
      requires Steady() && lists.lay.front == lists.heads[READY]
      requires checktime + GRANULARITY <= clock
      modifies this, lists, lists.lay.Repr()
      ensures Steady() && lists.lay.front == lists.heads[READY] && turns[0] == old(turns[0]) + 1
      ensures Ticked(old(Shot()), Shot())
      ensures checktime == old(checktime) + GRANULARITY && clock >= old(clock)
      ensures book == old(book).(clock := clock, own := checktime, placed := book.placed) && old(book).Leads(book)
      ensures lists.lay.Repr() <= old(lists.lay).Repr()
    {
      TickOwed(start, turns, lists.lay.at, timerMap, book);
      book := book.Tick();
      ghost var begun, was := book, lists.lay;
      Drain();
      ghost var mid := lists.lay;
      ShiftedAll(was.rings, spokeIndex[0]);
      Advance();
      TickOn(was, old(spokeIndex), mid, lists.lay, spokeIndex, old(clock), clock);
      LeadsOn(old(book), begun, book);
      checktime := checktime + GRANULARITY;
      GearedRest(spokeIndex, turns, start, checktime, clock);
    }

    /** Wheel 0 leaves its drained spoke, and the cascade follows when it comes round. */
    method Advance()
      requires Running({}) && Rest(start, spokeIndex, turns, checktime, clock) && lists.lay.front == lists.heads[READY]
      requires lists.lay.rings[turns[0] % 256] == [] && book.own == Own(start, turns) + GRANULARITY
      modifies this`spokeIndex, this`turns, this`book, this`clock, lists, lists.lay.Repr()
      ensures Running({}) && Geared(spokeIndex, turns, WHEEL_NUM) && lists.lay.front == lists.heads[READY]
      ensures turns[0] == old(turns[0]) + 1 && clock >= old(clock)
      ensures Emptied(old(lists.lay).rings, Opened(old(spokeIndex), 0)[1..], lists.lay, old(clock), clock)
      ensures book == old(book).(clock := clock, placed := book.placed) && old(book).Leads(book)
      ensures lists.lay.Repr() <= old(lists.lay).Repr()
    {
      TurnFirst();
      OpenedSame(old(spokeIndex), spokeIndex, 1);
      if spokeIndex[0] >= Size(0) {
        ComeRound(0);
      } else {
        LeadsSelf(book);
        SpilledNone(lists.lay.rings, lists.lay.at);
        RoutedNone(lists.lay.rings, lists.lay.at, clock, clock);
      }
    }

    method TurnFirst()
      requires Running({}) && Rest(start, spokeIndex, turns, checktime, clock)
      requires lists.lay.rings[turns[0] % 256] == [] && book.own == Own(start, turns) + GRANULARITY
      modifies this`spokeIndex, this`turns
      ensures lists.Valid() && |spokeIndex| == |turns| == WHEEL_NUM && turns[0] == old(turns[0]) + 1
      ensures spokeIndex == old(spokeIndex)[0 := old(spokeIndex)[0] + 1]
      ensures Owed(start, turns, lists.lay.at, {}, timerMap, book) && book.own == Own(start, turns)
      ensures if spokeIndex[0] < Size(0) then Running({}) && Geared(spokeIndex, turns, WHEEL_NUM)
              else Geared(spokeIndex[0 := 0], turns, 1) && Turns(1, turns[0])
    {
      RingKnown(lists.lay, turns[0] % 256);
      ghost var turned := turns[0 := turns[0] + 1];
      TurnOwed(start, turns, turned, lists.lay.at, {}, timerMap, book, 0);
      FirstTurn(spokeIndex, turns, start, checktime, clock);
      spokeIndex := spokeIndex[0 := spokeIndex[0] + 1];
      turns := turned;
    }

    lemma OpenedReset(spokes: seq<nat>, turns: seq<nat>, w: nat)
      requires |spokes| == WHEEL_NUM && w < WHEEL_NUM && Geared(spokes[w := 0], turns, w + 1)
      ensures Meshed(spokes[w := 0], turns) && Above(Opened(spokes, w + 1), w)
      ensures Opened(spokes[w := 0], w + 1) == Opened(spokes, w + 1)
    {
      GearedMeshed(spokes[w := 0], turns, w + 1);
      GearedSpokes(spokes[w := 0], turns, w + 1);
      OpenedAbove(spokes[w := 0], w + 1);
      OpenedSame(spokes, spokes[w := 0], w + 1);
    }

    /** Wheel `w` begins its next round, and the next wheel turns. */
    method ComeRound(w: nat)
      requires lists.Valid() && lists.lay.front == lists.heads[READY] && |spokeIndex| == WHEEL_NUM && w < WHEEL_NUM
      requires Geared(spokeIndex[w := 0], turns, w + 1) && (w + 1 < WHEEL_NUM ==> Turns(w + 1, turns[0]))
      requires Owed(start, turns, lists.lay.at, {}, timerMap, book) && book.own == Own(start, turns)
      requires book.clock == clock && book.lastId == lastId
      modifies this`spokeIndex, this`turns, this`book, this`clock, lists, lists.lay.Repr()
      ensures Running({}) && Geared(spokeIndex, turns, WHEEL_NUM) && lists.lay.front == lists.heads[READY]
      ensures turns[0] == old(turns[0]) && clock >= old(clock)
      ensures Emptied(old(lists.lay).rings, Opened(old(spokeIndex), w + 1), lists.lay, old(clock), clock)
      ensures Above(Opened(old(spokeIndex), w + 1), w)
      ensures book == old(book).(clock := clock, placed := book.placed) && old(book).Leads(book)
      ensures lists.lay.Repr() <= old(lists.lay).Repr()
      decreases WHEEL_NUM - w, 0
    {
      OpenedReset(spokeIndex, turns, w);
      spokeIndex := spokeIndex[w := 0];
      Cascade(w + 1);
    }

    /** The callbacks since `was` are those of the list, in its order, without those that were removed. */
    static ghost predicate FiredAlong(was: Ledger, ready: seq<Link>, book: Ledger) {
      && was.order <= book.order && Distinct(Entries(ready))
      && Thinned(book.order[|was.order|..], Entries(ready))
      && forall x :: x in ready ==> x.Entry() in book.firedAt || x.Entry() in book.removed
    }

    static lemma FiredDrained(was: Ledger, ticked: Ledger, ready: seq<Link>, book: Ledger)
      requires was.order == ticked.order && Distinct(Entries(ready)) && DrainedTo(ticked, ready, book, [])
      ensures FiredAlong(was, ready, book)
    {
      assert book.order[|was.order|..] + Entries([]) == book.order[|was.order|..];
    }

    /** `now` is the reading of the clock the call starts from. */
    method DetectTimerList(now: nat) returns (ghost trail: seq<Stage>)
      requires Valid() && clock <= now
      // beyond this gap, 497 days, the 32-bit loop counter never reaches its limit
      requires (now - checktime) / GRANULARITY < TWO_32
      modifies this, lists, lists.lay.Repr()
      ensures Valid() && fresh(lists.lay.Repr() - old(lists.lay).Repr())
      // nothing is undone, and every placement is an old one or was made since, by readings up to now
      ensures old(book).Leads(book)
      // the wheel's own time catches up with the clock
      ensures now < checktime + GRANULARITY && checktime <= now
      // whatever is due by the wheel's own time has fired or has been removed, and so has what was
      // put into a spoke of wheel 0 that has been emptied, due or not
      ensures forall x :: x in book.created && book.Due(x) ==> x in book.firedAt || x in book.removed
      // callbacks that ran in this call ran at `now` or later, and for armings made before it
      ensures forall x :: x in book.firedAt && x !in old(book).firedAt ==> book.firedAt[x] >= now && x in old(book).created
      // the lists go from tick to tick as `Ticked` says, and callbacks are called in the order of the
      // ready list that this leads to, but for those that others remove
      ensures Trail(trail, old(turns[0]))
      ensures |trail| == 1 + (if now > old(checktime) then (now - old(checktime)) / GRANULARITY else 0)
      ensures trail[0] == old(Shot()).(clock := now) && |trail[|trail| - 1].rings| == RINGS
      ensures FiredAlong(old(book), trail[|trail| - 1].rings[READY], book)
      // only callbacks remove
      ensures book.firedAt == old(book).firedAt ==> book.removed == old(book).removed
    {
      WaitOwed(start, turns, lists.lay.at, {}, timerMap, book, now);
      clock, book := now, book.Wait(now);
      ghost var waited := book;
      assert Steady();
      trail := Ticks(now);
      ghost var ticked, ready := book, lists.lay.rings[READY];
      ReadyCreated();
      DoTimeoutCallback();
      FiredDrained(old(book), ticked, ready, book);
      AllFired();
      Whole(old(book), waited, ticked, book);
      WholeFired(old(book), ticked, ready, book);
    }

    /** The loop of `detect_timer_list`. */
    method Ticks(now: nat) returns (ghost trail: seq<Stage>)
      requires Steady() && lists.lay.front == lists.heads[READY] && now == clock
      modifies this, lists, lists.lay.Repr()
      ensures Steady() && lists.lay.front == lists.heads[READY] && now < checktime + GRANULARITY && checktime <= now <= clock
      ensures book == old(book).(clock := clock, own := checktime, placed := book.placed) && old(book).Leads(book)
      ensures lists.lay.Repr() <= old(lists.lay).Repr()
      ensures Trail(trail, old(turns[0]))
      ensures |trail| == 1 + (if now > old(checktime) then (now - old(checktime)) / GRANULARITY else 0)
      ensures trail[0] == old(Shot()) && trail[|trail| - 1] == Shot()
    {
      LeadsSelf(book);
      var loopnum := if now > checktime then (now - checktime) / GRANULARITY else 0;
      var i := 0;
      trail := [Shot()];
      ShotKnown();
      TrailOne(Shot(), turns[0]);
      while i < loopnum
        invariant i <= loopnum && Steady() && lists.lay.front == lists.heads[READY]
        invariant checktime == old(checktime) + GRANULARITY * i && clock >= now
        invariant book == old(book).(clock := clock, own := checktime, placed := book.placed) && old(book).Leads(book)
        invariant lists.lay.Repr() <= old(lists.lay).Repr()
        invariant |trail| == i + 1 && trail[i] == Shot() && trail[0] == old(Shot())
        invariant Trail(trail, old(turns[0])) && turns[0] == old(turns[0]) + i
      {
        ghost var before := book;
        Tick();
        ShotKnown();
        TrailNext(trail, old(turns[0]), Shot());
        trail := trail + [Shot()];
        LeadsOn(old(book), before, book);
        i := i + 1;
      }
    }

    lemma ShotKnown()
      requires Steady()
      ensures Shot().spokes == SpokesAt(turns[0]) && Based(Shot())
    {
      LayoutBased(lists.lay, Shot());
    }

    /** Of two nodes that were in one ring when the call began and are due at the same time, the first in
        the ring is called first, unless one of them is not called in it. */
    static lemma InOrder(trail: seq<Stage>, n: nat, was: Ledger, book: Ledger, x: Link, y: Link, q: nat)
      requires Trail(trail, n) && trail != [] && |trail[|trail| - 1].rings| == RINGS
      requires FiredAlong(was, trail[|trail| - 1].rings[READY], book)
      requires q < |trail[0].rings| && Before(trail[0].rings[q], x, y) && x.dead == y.dead
      requires x in trail[|trail| - 1].rings[READY]
      ensures var fired := book.order[|was.order|..];
              x.Entry() in fired && y.Entry() in fired ==> Before(fired, x.Entry(), y.Entry())
    {
      ReadyOrder(trail, n, x, y, q);
      var fired, ready := book.order[|was.order|..], trail[|trail| - 1].rings[READY];
      if x.Entry() in fired && y.Entry() in fired {
        var i, j :| 0 <= i < j < |ready| && ready[i] == x && ready[j] == y;
        assert Entries(ready)[i] == x.Entry() && Entries(ready)[j] == y.Entry();
        ThinnedOrder(fired, Entries(ready), x.Entry(), y.Entry());
      }
    }

    /** Ready nodes are pending armings. */
    lemma ReadyCreated()
      requires Steady()
      ensures forall x :: x in lists.lay.rings[READY] ==> x.Entry() in book.created && x.Entry() !in book.firedAt
      ensures Distinct(Entries(lists.lay.rings[READY]))
    {
      RingKnown(lists.lay, READY);
      assert Open(0);
      book.GoodMeans();
    }

    static lemma WholeFired(was: Ledger, ticked: Ledger, ready: seq<Link>, book: Ledger)
      requires ticked.created == was.created && ticked.firedAt == was.firedAt && ticked.removed == was.removed
      requires forall x :: x in ready ==> x.Entry() in ticked.created && x.Entry() !in ticked.firedAt
      requires DrainedTo(ticked, ready, book, [])
      ensures forall x :: x in book.firedAt && x !in was.firedAt ==> x in was.created
      ensures book.firedAt == was.firedAt ==> book.removed == was.removed
    {
    }

    /** What the history says at any time between steps. */
    lemma FiringDiscipline()
      requires Steady()
      // a callback that ran before its time was put into wheel 0, by a clock ahead of the wheel's own
      // time by more than rounding makes good, and it ran less than this lead too early
      ensures forall x :: x in book.firedAt && book.firedAt[x] < x.dead ==>
                && x in book.placed && book.placed[x].Direct(x.dead)
                && book.placed[x].Lead() > GRANULARITY - (x.dead - book.placed[x].clock) % GRANULARITY
                && book.firedAt[x] > x.dead - book.placed[x].Lead()
      // every arming is pending, fired or removed, and only one of them
      ensures forall x :: x in book.created <==> x in book.firedAt || x in book.removed || Pending(x)
      ensures forall x :: x in book.firedAt ==> x !in book.removed && !Pending(x)
      ensures forall x :: x in book.removed ==> !Pending(x)
      // no arming fires twice: each callback call is one entry of `order`
      ensures Distinct(book.order) && forall x :: x in book.order <==> x in book.firedAt
      // a one-shot task fires at most once, and has then left the map
      ensures forall j, k :: 0 <= j < k < |book.order| && book.order[j].task.kind == Once ==>
                book.order[j].task.id != book.order[k].task.id
      ensures forall x, y {:trigger x in book.firedAt, y in book.firedAt} ::
                x in book.firedAt && y in book.firedAt && x != y && x.task.kind == Once ==> x.task.id != y.task.id
      ensures forall x :: x in book.firedAt && x.task.kind == Once ==> x.task.id !in timerMap
      // a circular task stays in the map until it is removed
      ensures forall id :: id in book.tasks && book.tasks[id].kind == Circle ==> id in timerMap || id in book.cancelled
      // an arming is due its interval after it was made
      ensures forall x :: x in book.created ==> x in book.armedAt && x.dead == book.armedAt[x] + x.task.interval
    {
      assert Open(0);
      book.GoodMeans();
      forall x | x in book.created
        ensures x in book.firedAt || x in book.removed || Pending(x)
      {
        if book.Pending(x) { assert timerMap[x.task.id].Entry() == x; }
      }
      forall x | x in book.firedAt && book.firedAt[x] < x.dead
        ensures x in book.placed && book.placed[x].Direct(x.dead)
        ensures book.placed[x].Lead() > GRANULARITY - (x.dead - book.placed[x].clock) % GRANULARITY
        ensures book.firedAt[x] > x.dead - book.placed[x].Lead()
      {
        EarlyLead(x);
      }
    }

    lemma EarlyLead(x: Arming)
      requires Steady() && x in book.firedAt && book.firedAt[x] < x.dead
      ensures x in book.placed && book.placed[x].Direct(x.dead)
      ensures book.placed[x].Lead() > GRANULARITY - (x.dead - book.placed[x].clock) % GRANULARITY
      ensures book.firedAt[x] > x.dead - book.placed[x].Lead()
    {
      OnlyDirect(start, turns, lists.lay.at, {}, timerMap, book, x);
      SlotEarly(x.dead, book.placed[x]);
    }

    /** As long as its time has not come, an arming that was not removed has fired exactly if it was put
        into wheel 0 and the wheel's own time has passed its slot there. */
    lemma EarlyIff(x: Arming)
      requires Valid() && x in book.created && x !in book.removed && clock < x.dead
      ensures x in book.placed
      ensures x in book.firedAt <==> book.placed[x].Direct(x.dead) && book.placed[x].Slot(x.dead) <= checktime
    {
      AllFired();
      PlacedKnown(x);
      if x in book.firedAt {
        FiredKnown(x);
        OnlyDirect(start, turns, lists.lay.at, {}, timerMap, book, x);
      }
    }

    lemma PlacedKnown(x: Arming)
      requires Steady() && x in book.created
      ensures x in book.placed
    {
      assert Open(0);
      book.GoodMeans();
    }

    lemma FiredKnown(x: Arming)
      requires Steady() && x in book.firedAt
      ensures book.firedAt[x] <= clock
    {
      assert Open(0);
      book.GoodMeans();
    }

    ghost predicate Pending(x: Arming)
      reads this
    {
      x.task.id in timerMap && timerMap[x.task.id].Entry() == x
    }

    /** `timer_map_` is a bijection onto the linked nodes, and each node is in exactly one ring. */
    lemma IndexAgreement()
      requires Steady()
      ensures forall id :: id in timerMap ==> timerMap[id] in lists.lay.at && timerMap[id].task.id == id
      ensures forall x :: x in lists.lay.at ==> x.task.id in timerMap && timerMap[x.task.id] == x
      ensures forall r, k :: 0 <= r < RINGS && 0 <= k < |lists.lay.rings[r]| ==>
                lists.lay.rings[r][k] in lists.lay.at && lists.lay.at[lists.lay.rings[r][k]] == r
      ensures forall x :: x in lists.lay.at ==> lists.lay.at[x] < RINGS && x in lists.lay.rings[lists.lay.at[x]]
      ensures forall r :: 0 <= r < RINGS ==> Distinct(lists.lay.rings[r])
      ensures forall x :: x in lists.lay.at ==>
                && x.prev != null && x.next != null && x.prev.next == x && x.next.prev == x
    {
      assert Open(0);
      forall r | 0 <= r < RINGS
        ensures Distinct(lists.lay.rings[r])
        ensures forall k :: 0 <= k < |lists.lay.rings[r]| ==>
                  lists.lay.rings[r][k] in lists.lay.at && lists.lay.at[lists.lay.rings[r][k]] == r
      {
        assert lists.lay.Owned(r);
      }
      forall x | x in lists.lay.at
        ensures x.prev != null && x.next != null && x.prev.next == x && x.next.prev == x
      {
        assert x in lists.lay.at.Keys + {};
        var r, k := Around(lists.lay, x);
      }
    }

    lemma AllFired()
      requires Valid()
      ensures forall x :: x in book.created && book.Due(x) ==> x in book.firedAt || x in book.removed
    {
      RingKnown(lists.lay, READY);
      RingBound(lists.lay);
      NoneLate(start, turns, lists.lay.at, timerMap, book);
    }
  }
}
