/** A timer and every call that is made of it, one at a time. */
module TimerRuns {
  import opened Words
  import opened Links
  import opened WheelTiming
  import opened Ledgers
  import opened Timers

  function Max(a: nat, b: int): nat {
    if b > a then b else a
  }

  class TimerRun {
    const timer: Timer
    /** The most that the clock, at the end of any call so far, was ahead of the wheel's own time at
        its start. */
    ghost var lead: nat

    ghost predicate Valid()
      reads this, timer, timer.lists, timer.lists.lay.succ.Keys, timer.lists.lay.succ.Values
    {
      timer.Valid() && Led(timer.book, lead)
    }

    constructor (now: nat)
      ensures Valid() && fresh(timer) && fresh(timer.lists) && fresh(timer.lists.lay.Repr())
      ensures lead == 0 && timer.checktime == timer.clock == now && timer.book.created == {}
    {
      timer := new Timer(now);
      lead := 0;
    }

    method AddTask(interval: nat, kind: Kind) returns (id: nat)
      requires Valid() && interval < TWO_32
      modifies this, timer, timer.lists, timer.lists.lay.Repr()
      ensures Valid() && fresh(timer.lists.lay.Repr() - old(timer.lists.lay).Repr())
      ensures lead == Max(old(lead), timer.clock - old(timer.checktime)) && old(timer.book).Leads(timer.book)
      ensures id in timer.timerMap && timer.timerMap[id].Entry() !in old(timer.book).created
      ensures timer.book == old(timer.book).Wait(timer.clock).Add(timer.timerMap[id].Entry())
    {
      ghost var node;
      id, node := timer.AddTask(interval, kind);
      lead := Max(lead, timer.clock - old(timer.checktime));
      LedOn(old(timer.book), old(lead), timer.book, lead);
    }

    method RemoveTask(id: nat)
      requires Valid()
      modifies this, timer, timer.lists, timer.lists.lay.Repr()
      ensures Valid() && timer.lists.lay.Repr() <= old(timer.lists.lay).Repr()
      ensures lead == Max(old(lead), timer.clock - old(timer.checktime)) && old(timer.book).Leads(timer.book)
      ensures timer.timerMap == old(timer.timerMap) - {id}
    {
      timer.RemoveTask(id);
      lead := Max(lead, timer.clock - old(timer.checktime));
      LedOn(old(timer.book), old(lead), timer.book, lead);
    }

    method DetectTimerList(now: nat)
      requires Valid() && timer.clock <= now && (now - timer.checktime) / GRANULARITY < TWO_32
      modifies this, timer, timer.lists, timer.lists.lay.Repr()
      ensures Valid() && fresh(timer.lists.lay.Repr() - old(timer.lists.lay).Repr())
      ensures lead == Max(old(lead), timer.clock - old(timer.checktime)) && old(timer.book).Leads(timer.book)
      ensures now < timer.checktime + GRANULARITY && timer.checktime <= now
      ensures forall x :: x in timer.book.created && timer.book.Due(x) ==> x in timer.book.firedAt || x in timer.book.removed
    {
      ghost var trail := timer.DetectTimerList(now);
      lead := Max(lead, timer.clock - old(timer.checktime));
      LedOn(old(timer.book), old(lead), timer.book, lead);
    }

    /** If every call has ended at most `most` ahead of the wheel's own time it started from, no callback
        has run `most` or more before its time. */
    lemma Earliness(most: nat)
      requires Valid() && lead <= most
      ensures forall x :: x in timer.book.firedAt ==>
                timer.book.firedAt[x] >= x.dead || timer.book.firedAt[x] > x.dead - most
    {
      timer.FiringDiscipline();
    }
  }

  /** Every placement was made by a clock at most `lead` ahead of the wheel's own time. */
  ghost predicate Led(book: Ledger, lead: nat) {
    forall x :: x in book.placed ==> book.placed[x].Lead() <= lead
  }

  lemma LedOn(was: Ledger, before: nat, book: Ledger, lead: nat)
    requires was.Leads(book) && Led(was, before)
    requires lead == Max(before, book.clock - was.own)
    ensures Led(book, lead)
  {
    was.LeadsMeans(book);
  }

  /** With calls 30 seconds apart, a 2000 ms timer added 29 seconds after the last call fires at the
      next one, a second early, unless that call takes so long that its time comes before its callback. */
  method EarlyRun() returns (t: Timer, ghost x: Arming, added: nat)
    ensures fresh(t) && t.Valid() && x.task == Task(x.task.id, 2000, Once) && x.dead == added + 2000
    ensures added == 29_000 && t.clock < 31_000 ==> x in t.book.firedAt && t.book.firedAt[x] < x.dead
  {
    t := new Timer(0);
    var id;
    ghost var node;
    id, node := t.AddTask(2000, Once);
    added, x := t.clock, node.Entry();
    if added == 29_000 {
      ghost var before := t.book;
      ghost var trail := t.DetectTimerList(30_000);
      if t.clock < 31_000 {
        FiresEarly(before, t.book, x);
        t.FiredKnown(x);
      }
    }
  }

  lemma FiresEarly(before: Ledger, book: Ledger, x: Arming)
    requires before.created == {x} && before.removed == {} && before.firedAt == map[]
    requires x.dead == 31_000 && x in before.placed && before.placed[x] == Placement(29_000, 0)
    requires before.Leads(book) && book.own > 29_990
    requires forall y :: y in book.created && book.Due(y) ==> y in book.firedAt || y in book.removed
    requires forall y :: y in book.firedAt ==> y in before.created
    requires book.firedAt == before.firedAt ==> book.removed == before.removed
    ensures x in book.firedAt
  {
    assert x !in book.firedAt ==> book.firedAt == map[];
    before.LeadsMeans(book);
    assert book.Due(x);
  }
}
