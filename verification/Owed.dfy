/** What the lists, the index and the history must agree on, and the steps that keep it. */
module Obligations {
  import opened Words
  import opened Seals
  import opened Links
  import opened WheelTiming
  import opened Ledgers

  /** A node in this ring is due in time: its slot is emptied while the wheel's own time is at
      most `dead`, or in wheel 0, in the very tick that its placement determines, by the one that
      passes it. */
  ghost predicate Slotted(start: nat, turns: seq<nat>, ring: nat, dead: nat, p: Placement)
    requires |turns| == WHEEL_NUM && ring < READY
  {
    var w := WheelOf(ring);
    var due := Due(w, turns[w], SpokeOf(ring));
    && start + GRANULARITY * due <= dead + (if w == 0 then GRANULARITY else 0)
    && (w == 0 <==> p.Direct(dead)) && (w == 0 ==> start + GRANULARITY * due == p.Slot(dead))
  }

  /** What is left of the interval belongs to this wheel or a lower one. */
  ghost predicate Settled(ring: nat, dead: nat, clock: nat) {
    clock < dead ==> SelectWheel((dead - clock) / GRANULARITY) <= WheelOf(ring)
  }

  /** As time passes a node never climbs to a higher wheel. */
  lemma SettledLater(ring: nat, dead: nat, clock: nat, now: nat)
    requires Settled(ring, dead, clock) && clock <= now
    ensures Settled(ring, dead, now)
  {
    if now < dead {
      assert (dead - now) / GRANULARITY <= (dead - clock) / GRANULARITY;
    }
  }

  ghost predicate Timed(start: nat, turns: seq<nat>, ring: nat, x: Arming, book: Ledger)
    requires |turns| == WHEEL_NUM
  {
    && x in book.placed
    && (ring < READY ==> Slotted(start, turns, ring, x.dead, book.placed[x]) && Settled(ring, x.dead, book.clock))
    && (ring == READY ==> Ripe(x.dead, book.clock, book.own, book.placed[x]))
  }

  /** Every linked node is in a slot that is due in time, or ready and due. */
  ghost predicate Timely(start: nat, turns: seq<nat>, at: map<Link, nat>, book: Ledger)
    requires |turns| == WHEEL_NUM
  {
    forall x :: x in at ==> Timed(start, turns, at[x], x.Entry(), book)
  }

  /** Nodes are taken out of the lists by a cascade, that is, not from wheel 0. */
  ghost predicate Held(hand: set<Link>, book: Ledger) {
    forall x :: x in hand ==> x.Entry() in book.placed && !book.placed[x.Entry()].Direct(x.dead)
  }

  /** `timer_map_` is a bijection between its ids and the nodes linked or in hand. */
  ghost predicate Indexed(pending: set<Link>, timerMap: map<nat, Link>, index: map<nat, Arming>) {
    && (forall x :: x in pending ==> x.task.id in timerMap && timerMap[x.task.id] == x)
    && (forall id :: id in timerMap ==> timerMap[id] in pending && timerMap[id].task.id == id)
    && index.Keys == timerMap.Keys
    && (forall id :: id in timerMap ==> index[id] == timerMap[id].Entry())
  }

  /** The lists, the index and the history agree, with the nodes `hand` taken out of the lists. */
  ghost predicate Owed(start: nat, turns: seq<nat>, at: map<Link, nat>, hand: set<Link>,
                       timerMap: map<nat, Link>, book: Ledger)
    requires |turns| == WHEEL_NUM
  {
    OwedSeal(start, turns, at, hand, timerMap, book).Kept?
  }

  ghost function OwedSeal(start: nat, turns: seq<nat>, at: map<Link, nat>, hand: set<Link>,
                          timerMap: map<nat, Link>, book: Ledger): Seal
    requires |turns| == WHEEL_NUM
  {
    if forall k: nat {:trigger Open(k)} :: Open(k) ==>
      && at.Keys !! hand
      && Indexed(at.Keys + hand, timerMap, book.index)
      && Timely(start, turns, at, book)
      && Held(hand, book)
      && book.Good()
    then Kept else Broken
  }

  lemma KeysPut<T>(at: map<T, nat>, hand: set<T>, x: T, ring: nat)
    ensures at[x := ring].Keys + hand == at.Keys + hand + {x}
    ensures at[x := ring].Keys + {} == at.Keys + {x}
    ensures x in hand ==> at[x := ring].Keys + (hand - {x}) == at.Keys + hand
    ensures at.Keys + {} == at.Keys
  {
  }

  lemma KeysLess<T>(at: map<T, nat>, gone: set<T>)
    ensures gone <= at.Keys ==> (at - gone).Keys + gone == at.Keys
    ensures (at - gone).Keys + {} == at.Keys - gone
    ensures at.Keys + {} == at.Keys
  {
  }

  lemma IndexPut(pending: set<Link>, timerMap: map<nat, Link>, index: map<nat, Arming>, node: Link)
    requires Indexed(pending, timerMap, index)
    ensures node.task.id !in timerMap ==>
              Indexed(pending + {node}, timerMap[node.task.id := node], index[node.task.id := node.Entry()])
    ensures node.task.id in timerMap && node !in pending ==>
              Indexed(pending - {timerMap[node.task.id]} + {node}, timerMap[node.task.id := node], index[node.task.id := node.Entry()])
  {
  }

  lemma IndexDrop(pending: set<Link>, timerMap: map<nat, Link>, index: map<nat, Arming>, x: Link)
    requires Indexed(pending, timerMap, index) && x in pending
    ensures Indexed(pending - {x}, timerMap - {x.task.id}, index - {x.task.id})
  {
  }

  lemma TimelyPut(start: nat, turns: seq<nat>, at: map<Link, nat>, book: Ledger, later: Ledger,
                  node: Link, ring: nat, p: Placement)
    requires |turns| == WHEEL_NUM && Timely(start, turns, at, book)
    requires Timed(start, turns, ring, node.Entry(), later) && later.clock == book.clock && later.own == book.own
    requires later.placed == book.placed[node.Entry() := p]
    requires forall y :: y in at && y != node ==> y.Entry() != node.Entry()
    ensures Timely(start, turns, at[node := ring], later)
  {
    forall y | y in at[node := ring]
      ensures Timed(start, turns, at[node := ring][y], y.Entry(), later)
    {
      if y != node { TimedLater(start, turns, at[y], y.Entry(), book, later); }
    }
  }

  lemma TimedLater(start: nat, turns: seq<nat>, ring: nat, x: Arming, book: Ledger, later: Ledger)
    requires |turns| == WHEEL_NUM && Timed(start, turns, ring, x, book)
    requires later.clock >= book.clock && later.own >= book.own
    requires x in later.placed && later.placed[x] == book.placed[x]
    ensures Timed(start, turns, ring, x, later)
  {
    if ring < READY { SettledLater(ring, x.dead, book.clock, later.clock); }
  }

  lemma TimelyLater(start: nat, turns: seq<nat>, at: map<Link, nat>, book: Ledger, later: Ledger)
    requires |turns| == WHEEL_NUM && Timely(start, turns, at, book)
    requires later.clock >= book.clock && later.own >= book.own && later.placed == book.placed
    ensures Timely(start, turns, at, later)
  {
    forall y | y in at
      ensures Timed(start, turns, at[y], y.Entry(), later)
    {
      TimedLater(start, turns, at[y], y.Entry(), book, later);
    }
  }

  lemma TimelyLess(start: nat, turns: seq<nat>, at: map<Link, nat>, book: Ledger, later: Ledger, gone: set<Link>)
    requires |turns| == WHEEL_NUM && Timely(start, turns, at, book)
    requires later.clock >= book.clock && later.own >= book.own && later.placed == book.placed
    ensures Timely(start, turns, at - gone, later)
  {
    forall y | y in at - gone
      ensures Timed(start, turns, (at - gone)[y], y.Entry(), later)
    {
      TimedLater(start, turns, at[y], y.Entry(), book, later);
    }
  }

  /** Nothing is owed before the first task. */
  lemma StartOwed(start: nat, turns: seq<nat>, book: Ledger)
    requires |turns| == WHEEL_NUM && book == Ledger(map[], 0, start, start, 0, {}, map[], map[], map[], [], {}, map[], {})
    ensures Owed(start, turns, map[], {}, map[], book)
  {
    book.GoodOf();
  }

  lemma WaitOwed(start: nat, turns: seq<nat>, at: map<Link, nat>, hand: set<Link>,
                 timerMap: map<nat, Link>, book: Ledger, now: nat)
    requires |turns| == WHEEL_NUM && Owed(start, turns, at, hand, timerMap, book) && book.clock <= now
    ensures Owed(start, turns, at, hand, timerMap, book.Wait(now)) && book.Leads(book.Wait(now))
  {
    assert Open(0);
    book.WaitGood(now);
    TimelyLater(start, turns, at, book, book.Wait(now));
  }

  /** A new task is armed at clock `now`. */
  lemma AddOwed(start: nat, turns: seq<nat>, at: map<Link, nat>, timerMap: map<nat, Link>, old_: Ledger, now: nat,
                node: Link, ring: nat)
    requires |turns| == WHEEL_NUM && Owed(start, turns, at, {}, timerMap, old_) && old_.clock <= now
    requires node !in at && node.serial == old_.serials
    requires ring < READY && Slotted(start, turns, ring, node.dead, Placement(now, old_.own)) && Settled(ring, node.dead, now)
    requires node.task.id > old_.lastId && node.task.interval < TWO_32 && node.dead == now + node.task.interval
    ensures var book := old_.Wait(now).Add(node.Entry());
            && Owed(start, turns, at[node := ring], {}, timerMap[node.task.id := node], book)
            && old_.Leads(book) && node.Entry() !in old_.created
    ensures node.task.id !in timerMap
  {
    assert Open(0);
    WaitOwed(start, turns, at, {}, timerMap, old_, now);
    var x, book := node.Entry(), old_.Wait(now);
    book.GoodMeans();
    assert node.task.id !in timerMap;
    book.AddGood(x);
    KeysPut(at, {}, node, ring);
    IndexPut(at.Keys, timerMap, book.index, node);
    FreshLag(at.Keys, timerMap, book, node);
    TimelyPut(start, turns, at, book, book.Add(x), node, ring, Placement(now, book.own));
    LeadsOn(old_, book, book.Add(x));
  }

  /** A new serial makes a new history entry. */
  lemma FreshLag(pending: set<Link>, timerMap: map<nat, Link>, book: Ledger, node: Link)
    requires Indexed(pending, timerMap, book.index) && book.Good() && node.serial == book.serials
    ensures forall y :: y in pending ==> y.Entry() != node.Entry()
  {
    book.GoodMeans();
    forall y | y in pending
      ensures y.Entry() != node.Entry()
    {
      assert y.Entry() in book.created;
    }
  }

  /** The circular node `x` is taken off the ready list at clock `now`, replaced by `node`, and fires. */
  lemma RenewOwed(start: nat, turns: seq<nat>, at: map<Link, nat>, timerMap: map<nat, Link>, old_: Ledger, now: nat,
                  x: Link, node: Link, ring: nat)
    requires |turns| == WHEEL_NUM && Owed(start, turns, at, {}, timerMap, old_) && old_.clock <= now
    requires x in at && at[x] == READY && x.task.kind == Circle
    requires node !in at && node.serial == old_.serials && node.task == x.task
    requires ring < READY && Slotted(start, turns, ring, node.dead, Placement(now, old_.own)) && Settled(ring, node.dead, now)
    requires node.dead == now + node.task.interval
    ensures var book := old_.Wait(now).Renew(x.Entry(), node.Entry());
            && Owed(start, turns, (at - {x})[node := ring], {}, timerMap[x.task.id := node], book)
            && old_.Leads(book)
  {
    assert Open(0);
    WaitOwed(start, turns, at, {}, timerMap, old_, now);
    var e, f, book := x.Entry(), node.Entry(), old_.Wait(now);
    FreshLag(at.Keys, timerMap, book, node);
    book.RenewGood(e, f);
    IndexPut(at.Keys, timerMap, book.index, node);
    KeysLess(at, {x});
    KeysPut(at - {x}, {}, node, ring);
    TimelyRenew(start, turns, at, book, e, x, node, ring);
    LeadsOn(old_, book, book.Renew(e, f));
  }

  lemma TimelyRenew(start: nat, turns: seq<nat>, at: map<Link, nat>, book: Ledger, e: Arming, x: Link, node: Link, ring: nat)
    requires |turns| == WHEEL_NUM && Timely(start, turns, at, book)
    requires ring < READY && Slotted(start, turns, ring, node.dead, Placement(book.clock, book.own))
    requires Settled(ring, node.dead, book.clock) && forall y :: y in at ==> y.Entry() != node.Entry()
    ensures Timely(start, turns, (at - {x})[node := ring], book.Renew(e, node.Entry()))
  {
    TimelyLess(start, turns, at, book, book, {x});
    TimelyPut(start, turns, at - {x}, book, book.Renew(e, node.Entry()), node, ring, Placement(book.clock, book.own));
  }

  /** The one-shot node `x` is taken off the ready list, leaves the map, and fires. */
  lemma RetireOwed(start: nat, turns: seq<nat>, at: map<Link, nat>, timerMap: map<nat, Link>, book: Ledger, x: Link)
    requires |turns| == WHEEL_NUM && Owed(start, turns, at, {}, timerMap, book)
    requires x in at && at[x] == READY && x.task.kind == Once
    ensures Owed(start, turns, at - {x}, {}, timerMap - {x.task.id}, book.Retire(x.Entry()))
    ensures book.Leads(book.Retire(x.Entry()))
  {
    assert Open(0);
    book.RetireGood(x.Entry());
    IndexDrop(at.Keys, timerMap, book.index, x);
    KeysLess(at, {x});
    TimelyLess(start, turns, at, book, book.Retire(x.Entry()), {x});
  }

  lemma CancelOwed(start: nat, turns: seq<nat>, at: map<Link, nat>, timerMap: map<nat, Link>, book: Ledger, x: Link)
    requires |turns| == WHEEL_NUM && Owed(start, turns, at, {}, timerMap, book) && x in at
    ensures Owed(start, turns, at - {x}, {}, timerMap - {x.task.id}, book.Cancel(x.Entry()))
    ensures book.Leads(book.Cancel(x.Entry()))
  {
    assert Open(0);
    var pending := at.Keys + {};
    assert x in pending;
    book.CancelGood(x.Entry());
    IndexDrop(pending, timerMap, book.index, x);
    KeysLess(at, {x});
    TimelyLess(start, turns, at, book, book.Cancel(x.Entry()), {x});
  }

  /** Nodes leave the lists but stay pending. */
  lemma HoldOwed(start: nat, turns: seq<nat>, at: map<Link, nat>, timerMap: map<nat, Link>, book: Ledger, taken: set<Link>)
    requires |turns| == WHEEL_NUM && Owed(start, turns, at, {}, timerMap, book) && taken <= at.Keys
    requires forall x :: x in taken ==> 256 <= at[x] < READY
    ensures Owed(start, turns, at - taken, taken, timerMap, book)
  {
    assert Open(0);
    KeysLess(at, taken);
    TimelyLess(start, turns, at, book, book, taken);
    forall x | x in taken
      ensures x.Entry() in book.placed && !book.placed[x.Entry()].Direct(x.dead)
    {
      assert Timed(start, turns, at[x], x.Entry(), book);
    }
  }

  /** A node in hand goes into a spoke it is on time for. */
  lemma PutOwed(start: nat, turns: seq<nat>, at: map<Link, nat>, hand: set<Link>, timerMap: map<nat, Link>, book: Ledger,
                x: Link, ring: nat)
    requires |turns| == WHEEL_NUM && Owed(start, turns, at, hand, timerMap, book) && x in hand
    requires ring < READY && Slotted(start, turns, ring, x.dead, Placement(book.clock, book.own))
    requires Settled(ring, x.dead, book.clock)
    ensures Owed(start, turns, at[x := ring], hand - {x}, timerMap, book.Replace(x.Entry()))
    ensures book.Leads(book.Replace(x.Entry()))
  {
    assert Open(0);
    var pending := at.Keys + hand;
    assert x in pending;
    book.ReplaceGood(x.Entry());
    KeysPut(at, hand, x, ring);
    HandEntries(at, hand, timerMap, book, x);
    TimelyPut(start, turns, at, book, book.Replace(x.Entry()), x, ring, Placement(book.clock, book.own));
  }

  /** A node in hand whose time has come goes to the ready list. */
  lemma ReadyOwed(start: nat, turns: seq<nat>, at: map<Link, nat>, hand: set<Link>, timerMap: map<nat, Link>, book: Ledger,
                  x: Link)
    requires |turns| == WHEEL_NUM && Owed(start, turns, at, hand, timerMap, book) && x in hand && x.dead <= book.clock
    ensures Owed(start, turns, at[x := READY], hand - {x}, timerMap, book)
  {
    assert Open(0);
    var pending, e := at.Keys + hand, x.Entry();
    assert x in pending;
    KeysPut(at, hand, x, READY);
    HandEntries(at, hand, timerMap, book, x);
    assert book.placed == book.placed[e := book.placed[e]];
    TimelyPut(start, turns, at, book, book, x, READY, book.placed[e]);
  }

  lemma HandEntries(at: map<Link, nat>, hand: set<Link>, timerMap: map<nat, Link>, book: Ledger, x: Link)
    requires Indexed(at.Keys + hand, timerMap, book.index) && at.Keys !! hand && x in hand
    ensures forall y :: y in at || (y in hand && y != x) ==> y.Entry() != x.Entry()
  {
    forall y | y in at || (y in hand && y != x)
      ensures y.Entry() != x.Entry()
    {
      assert y in at.Keys + hand && x in at.Keys + hand;
    }
  }

  /** A tick begins. */
  lemma TickOwed(start: nat, turns: seq<nat>, at: map<Link, nat>, timerMap: map<nat, Link>, book: Ledger)
    requires |turns| == WHEEL_NUM && Owed(start, turns, at, {}, timerMap, book) && book.own + GRANULARITY <= book.clock
    ensures Owed(start, turns, at, {}, timerMap, book.Tick()) && book.Leads(book.Tick())
  {
    assert Open(0);
    book.TickGood();
    TimelyLater(start, turns, at, book, book.Tick());
  }

  /** Wheel `w` turns past a spoke that holds no node. */
  lemma TurnOwed(start: nat, turns: seq<nat>, later: seq<nat>, at: map<Link, nat>, hand: set<Link>,
                 timerMap: map<nat, Link>, book: Ledger, w: nat)
    requires |turns| == WHEEL_NUM && Owed(start, turns, at, hand, timerMap, book) && w < WHEEL_NUM
    requires later == turns[w := turns[w] + 1]
    requires forall x :: x in at ==> at[x] != FirstRing(w) + turns[w] % Size(w)
    ensures Owed(start, later, at, hand, timerMap, book)
  {
    assert Open(0);
    forall x | x in at
      ensures Timed(start, later, at[x], x.Entry(), book)
    {
      assert Timed(start, turns, at[x], x.Entry(), book);
      TimedTurn(start, turns, at[x], x.Entry(), book, w);
    }
  }

  lemma TimedTurn(start: nat, turns: seq<nat>, ring: nat, x: Arming, book: Ledger, w: nat)
    requires |turns| == WHEEL_NUM && Timed(start, turns, ring, x, book) && w < WHEEL_NUM
    requires ring != FirstRing(w) + turns[w] % Size(w)
    ensures Timed(start, turns[w := turns[w] + 1], ring, x, book)
  {
    if ring < READY && WheelOf(ring) == w {
      RingOf(ring);
      TurnKept(w, turns[w], SpokeOf(ring));
    }
  }

  /** A linked or held node is the one its id names, and what is left of its interval is 32 bits wide. */
  lemma PendingKnown(start: nat, turns: seq<nat>, at: map<Link, nat>, hand: set<Link>, timerMap: map<nat, Link>, book: Ledger, x: Link)
    requires |turns| == WHEEL_NUM && Owed(start, turns, at, hand, timerMap, book)
    requires x in at || x in hand
    ensures x.task.id in timerMap && timerMap[x.task.id] == x
    ensures x.task.interval < TWO_32 && x.dead < book.clock + TWO_32
    ensures x.Entry() in book.created && x.Entry() in book.placed && book.own <= book.clock
  {
    assert Open(0);
    book.GoodMeans();
    assert x in at.Keys + hand;
    assert x.Entry() in book.created;
  }

  lemma HandApart(start: nat, turns: seq<nat>, at: map<Link, nat>, hand: set<Link>, timerMap: map<nat, Link>, book: Ledger)
    requires |turns| == WHEEL_NUM && Owed(start, turns, at, hand, timerMap, book)
    ensures at.Keys !! hand
  {
    assert Open(0);
  }

  lemma SettledRing(start: nat, turns: seq<nat>, at: map<Link, nat>, timerMap: map<nat, Link>, book: Ledger,
                    chain: seq<Link>, ring: nat)
    requires |turns| == WHEEL_NUM && Owed(start, turns, at, {}, timerMap, book) && ring < READY
    requires forall x :: x in chain ==> x in at && at[x] == ring
    ensures forall x :: x in chain ==> Settled(ring, x.dead, book.clock)
  {
    assert Open(0);
    forall x | x in chain
      ensures Settled(ring, x.dead, book.clock)
    {
      assert Timed(start, turns, at[x], x.Entry(), book);
    }
  }

  lemma MappedLinked(start: nat, turns: seq<nat>, at: map<Link, nat>, timerMap: map<nat, Link>, book: Ledger, id: nat)
    requires |turns| == WHEEL_NUM && Owed(start, turns, at, {}, timerMap, book) && id in timerMap
    ensures timerMap[id] in at && timerMap[id].task.id == id
  {
    assert Open(0);
  }

  /** The spoke wheel 0 stands at is emptied by the tick under way. */
  lemma DrainedRipe(start: nat, turns: seq<nat>, dead: nat, clock: nat, own: nat, p: Placement)
    requires |turns| == WHEEL_NUM && Slotted(start, turns, turns[0] % 256, dead, p)
    requires own == start + GRANULARITY * (turns[0] + 1)
    ensures Ripe(dead, clock, own, p)
  {
    Congruent256(0, turns[0] % 256, turns[0]);
    assert Due(0, turns[0], turns[0] % 256) == turns[0] + 1;
  }

  /** The node drained by the tick under way goes from wheel 0 to the ready list. */
  lemma DrainOwed(start: nat, turns: seq<nat>, at: map<Link, nat>, timerMap: map<nat, Link>, book: Ledger, x: Link)
    requires |turns| == WHEEL_NUM && Owed(start, turns, at, {}, timerMap, book)
    requires x in at && at[x] == turns[0] % 256
    requires book.own == start + GRANULARITY * (turns[0] + 1)
    ensures Owed(start, turns, (at - {x})[x := READY], {}, timerMap, book)
  {
    assert Open(0);
    KeysLess(at, {x});
    KeysPut(at - {x}, {}, x, READY);
    var e := x.Entry();
    assert Timed(start, turns, at[x], e, book);
    DrainedRipe(start, turns, x.dead, book.clock, book.own, book.placed[e]);
    TimelyLess(start, turns, at, book, book, {x});
    forall y | y in at - {x}
      ensures y.Entry() != e
    {
      assert timerMap[y.task.id] == y && timerMap[x.task.id] == x;
    }
    assert book.placed == book.placed[e := book.placed[e]];
    TimelyPut(start, turns, at - {x}, book, book, x, READY, book.placed[e]);
  }

  /** After a call, what should have fired by the wheel's own time has fired or was removed: what is
      due, and what was put into a spoke of wheel 0 that has been emptied. */
  lemma NoneLate(start: nat, turns: seq<nat>, at: map<Link, nat>, timerMap: map<nat, Link>, book: Ledger)
    requires |turns| == WHEEL_NUM && Owed(start, turns, at, {}, timerMap, book)
    requires forall w :: 0 <= w < WHEEL_NUM ==> turns[w] == Spokes(w, turns[0])
    requires forall x :: x in at ==> at[x] < READY
    requires book.own == start + GRANULARITY * turns[0]
    ensures forall x :: x in book.created && book.Due(x) ==> x in book.firedAt || x in book.removed
    ensures forall x :: x in book.created ==> x in book.placed
  {
    assert Open(0);
    book.GoodMeans();
    forall x | x in book.created && book.Pending(x)
      ensures !book.Due(x)
    {
      var link := timerMap[x.task.id];
      assert link in at && link.Entry() == x;
      assert Timed(start, turns, at[link], x, book);
      RingOf(at[link]);
      DueLater(WheelOf(at[link]), SpokeOf(at[link]), turns[0]);
    }
  }

  /** Before its time an arming has fired only if its spoke of wheel 0 has been emptied. */
  lemma OnlyDirect(start: nat, turns: seq<nat>, at: map<Link, nat>, hand: set<Link>, timerMap: map<nat, Link>, book: Ledger,
                   x: Arming)
    requires |turns| == WHEEL_NUM && Owed(start, turns, at, hand, timerMap, book)
    requires x in book.firedAt && book.firedAt[x] < x.dead
    ensures x in book.placed && book.placed[x].Direct(x.dead)
    ensures book.placed[x].Slot(x.dead) <= book.own && book.placed[x].Slot(x.dead) <= book.firedAt[x]
  {
    assert Open(0);
    book.GoodMeans();
  }
}
