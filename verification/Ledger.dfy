/** What the timer owes: the history of every arming, and what keeps it honest. */
module Ledgers {
  import opened Words
  import opened Seals
  import opened Sequences
  import opened Links
  import opened WheelTiming

  const LEADS: nat := 1
  const GOOD: nat := 3

  /** The clock reading by which a node was last put into a wheel, and the wheel's own time then:
      that of the ticks done, the one under way included. */
  datatype Placement = Placement(clock: nat, own: nat)
  {
    /** By how much the clock was ahead of the wheel's own time. */
    ghost function Lead(): int {
      clock - own
    }

    /** A node due at `dead` was put into wheel 0, from where it fires without another look at the clock. */
    ghost predicate Direct(dead: nat) {
      clock <= dead && SelectWheel((dead - clock) / GRANULARITY) == 0
    }

    /** The wheel's own time when its spoke is next emptied. */
    ghost function Slot(dead: nat): int {
      own + GRANULARITY * ((dead - clock) / GRANULARITY + 1)
    }
  }

  /** `dead` has passed, or the spoke that the node was put into has been emptied. */
  ghost predicate Ripe(dead: nat, clock: nat, own: nat, p: Placement) {
    dead <= clock || (p.Direct(dead) && p.Slot(dead) <= own)
  }

  /** A slot is never emptied the lead or more before its time, and before it at all exactly if the
      lead exceeds what rounding to ticks makes good. */
  lemma SlotEarly(dead: nat, p: Placement)
    requires p.Direct(dead)
    ensures dead - p.Lead() < p.Slot(dead) <= dead - p.Lead() + GRANULARITY
    ensures p.Slot(dead) < dead <==> p.Lead() > GRANULARITY - (dead - p.clock) % GRANULARITY
  {
  }

  /** `index` is `timer_map_`, `lastId` the last task id issued, `clock` the last clock reading,
      `own` the wheel's own time. `created` holds every arming ever made, `armedAt` the clock when it
      was made, `placed` how its node was last put into a wheel. Armings end in `firedAt`, with the
      clock at the callback, or in `removed`; `order` is the order of the callbacks. `tasks` holds
      every task ever added, `cancelled` the ids that `remove_task` has found. */
  datatype Ledger = Ledger(
    index: map<nat, Arming>, lastId: nat, clock: nat, own: nat, serials: nat,
    created: set<Arming>, armedAt: map<Arming, nat>, placed: map<Arming, Placement>,
    firedAt: map<Arming, nat>, order: seq<Arming>, removed: set<Arming>,
    tasks: map<nat, Task>, cancelled: set<nat>)
  {
    ghost predicate Pending(x: Arming) {
      x.task.id in index && index[x.task.id] == x
    }

    /** Each arming is pending, fired or removed, and only one of them; it fires once. */
    ghost predicate Accounted() {
      && (forall id :: id in index ==> index[id].task.id == id && index[id] in created)
      && (forall x :: x in created ==> Pending(x) || x in firedAt || x in removed)
      && (forall x :: x in firedAt ==> x in created && !Pending(x) && x !in removed)
      && (forall x :: x in removed ==> x in created && !Pending(x) && x.task.id in cancelled)
      && Distinct(order) && (forall x :: x in order <==> x in firedAt)
    }

    /** An arming is due its task's interval after it was made. */
    ghost predicate Dated() {
      && (forall x :: x in placed ==> x in created)
      && forall x :: x in created ==>
        && x.serial < serials && x in placed
        && x.task.id in tasks && tasks[x.task.id] == x.task
        && x in armedAt && armedAt[x] <= clock && x.dead == armedAt[x] + x.task.interval
    }

    /** A callback ran after its time, or else its spoke of wheel 0 had been emptied; a one-shot id
        fires once and leaves the map; a circular id stays until it is cancelled. */
    ghost predicate Disciplined() {
      && (forall x :: x in firedAt ==> x in placed && Punctual(x, firedAt[x]) && firedAt[x] <= clock)
      && (forall x :: x in firedAt && x.task.kind == Once ==> x.task.id !in index)
      && (forall x, y {:trigger x in firedAt, y in firedAt} ::
            x in firedAt && y in firedAt && x != y && x.task.kind == Once ==> x.task.id != y.task.id)
      && (forall id :: id in tasks ==> id <= lastId && tasks[id].interval < TWO_32 && tasks[id].id == id)
      && (forall id :: id in tasks && tasks[id].kind == Circle ==> id in index || id in cancelled)
    }

    ghost predicate Punctual(x: Arming, at: nat)
      requires x in placed
    {
      x.dead <= at || (placed[x].Direct(x.dead) && placed[x].Slot(x.dead) <= own && placed[x].Slot(x.dead) <= at)
    }

    /** Should have left the wheels by the wheel's own time. */
    ghost predicate Due(x: Arming) {
      x.dead < own || (x in placed && placed[x].Direct(x.dead) && placed[x].Slot(x.dead) <= own)
    }

    ghost predicate Good() {
      GoodSeal().Kept?
    }

    ghost function GoodSeal(): Seal {
      if forall k: nat {:trigger Key(GOOD, k)} :: Key(GOOD, k) ==> Accounted() && Dated() && Disciplined() && own <= clock
      then Kept else Broken
    }

    lemma GoodOf()
      requires Accounted() && Dated() && Disciplined() && own <= clock
      ensures Good()
    {
    }

    lemma GoodMeans()
      requires Good()
      ensures Accounted() && Dated() && Disciplined() && own <= clock
    {
      assert Key(GOOD, 0);
    }

    /** Every placement of `later` is one of this history, or was made since; one into wheel 0 is the last. */
    ghost predicate Places(later: Ledger) {
      && (forall x :: x in later.placed ==>
            || (x in placed && later.placed[x] == placed[x])
            || (own <= later.placed[x].own <= later.own && clock <= later.placed[x].clock <= later.clock))
      && (forall x :: x in placed ==>
            x in later.placed && (placed[x].Direct(x.dead) ==> later.placed[x] == placed[x]))
    }

    /** `later` continues this history: nothing is undone, and nothing fires in the past. */
    ghost predicate Continued(later: Ledger) {
      && clock <= later.clock && own <= later.own && order <= later.order && Places(later)
      && created <= later.created && removed <= later.removed && cancelled <= later.cancelled
      && (forall x :: x in firedAt ==> x in later.firedAt && later.firedAt[x] == firedAt[x])
      && (forall x :: x in later.firedAt && x !in firedAt ==> later.firedAt[x] >= clock)
      && (forall id :: id in tasks ==> id in later.tasks && later.tasks[id] == tasks[id])
    }

    ghost predicate Leads(later: Ledger) {
      LeadsSeal(later).Kept?
    }

    ghost function LeadsSeal(later: Ledger): Seal {
      if forall k: nat {:trigger Key(LEADS, k)} :: Key(LEADS, k) ==> Continued(later) then Kept else Broken
    }

    lemma LeadsMeans(later: Ledger)
      requires Leads(later)
      ensures Continued(later)
    {
      assert Key(LEADS, 0);
    }

    ghost function Wait(now: nat): Ledger {
      this.(clock := now)
    }

    ghost function Tick(): Ledger {
      this.(own := own + GRANULARITY)
    }

    ghost function Arm(x: Arming): Ledger {
      this.(serials := serials + 1, index := index[x.task.id := x], created := created + {x},
            armedAt := armedAt[x := clock], placed := placed[x := Placement(clock, own)])
    }

    /** A new task under a fresh id. */
    ghost function Add(x: Arming): Ledger {
      Arm(x).(lastId := x.task.id, tasks := tasks[x.task.id := x.task])
    }

    /** A one-shot task leaves the map. */
    ghost function Leave(x: Arming): Ledger {
      this.(index := index - {x.task.id})
    }

    /** The callback of `x` is called. */
    ghost function Fire(x: Arming): Ledger {
      this.(firedAt := firedAt[x := clock], order := order + [x])
    }

    /** A circular task is armed anew as `y`, then `x` fires. */
    ghost function Renew(x: Arming, y: Arming): Ledger {
      Arm(y).Fire(x)
    }

    /** A one-shot task leaves the map, then fires. */
    ghost function Retire(x: Arming): Ledger {
      Leave(x).Fire(x)
    }

    ghost function Cancel(x: Arming): Ledger {
      this.(index := index - {x.task.id}, removed := removed + {x}, cancelled := cancelled + {x.task.id})
    }

    ghost function Replace(x: Arming): Ledger {
      this.(placed := placed[x := Placement(clock, own)])
    }

    lemma WaitGood(now: nat)
      requires Good() && clock <= now
      ensures Wait(now).Good() && Leads(Wait(now))
    {
      GoodMeans();
      WaitLeads(now);
    }

    lemma WaitLeads(now: nat)
      requires clock <= now
      ensures Leads(Wait(now))
    {
    }

    lemma TickGood()
      requires Good() && own + GRANULARITY <= clock
      ensures Tick().Good() && Leads(Tick())
    {
      GoodMeans();
      TickLeads();
    }

    lemma TickLeads()
      ensures Leads(Tick())
    {
    }

    lemma AddGood(x: Arming)
      requires Good() && x.serial == serials
      requires x.task.id > lastId && x.task.interval < TWO_32 && x.dead == clock + x.task.interval
      ensures Add(x).Good() && Leads(Add(x))
    {
      GoodMeans();
      AddAccounted(x);
      AddDated(x);
      AddDisciplined(x);
      AddLeads(x);
    }

    lemma AddLeads(x: Arming)
      requires x !in placed && x.task.id !in tasks
      ensures Leads(Add(x))
    {
    }

    lemma AddAccounted(x: Arming)
      requires Accounted() && x !in created && x.task.id !in index
      ensures Add(x).Accounted()
    {
    }

    lemma AddDated(x: Arming)
      requires Dated() && x.serial == serials && x.task.id !in tasks && x.dead == clock + x.task.interval
      ensures Add(x).Dated()
    {
    }

    lemma AddDisciplined(x: Arming)
      requires Disciplined() && x !in created && firedAt.Keys <= created
      requires x.task.id > lastId && x.task.interval < TWO_32
      requires forall y :: y in created ==> y.task.id in tasks
      ensures Add(x).Disciplined()
    {
    }

    lemma RenewGood(x: Arming, y: Arming)
      requires Good() && Pending(x) && y.serial == serials
      requires y.task == x.task && x.task.kind == Circle && y.dead == clock + y.task.interval
      requires x in placed && Ripe(x.dead, clock, own, placed[x])
      ensures Renew(x, y).Good() && Leads(Renew(x, y))
    {
      GoodMeans();
      RenewAccounted(x, y);
      RenewDated(x, y);
      RenewDisciplined(x, y);
      RenewLeads(x, y);
    }

    lemma RenewLeads(x: Arming, y: Arming)
      requires x !in firedAt && y !in placed
      ensures Leads(Renew(x, y))
    {
    }

    lemma RenewAccounted(x: Arming, y: Arming)
      requires Accounted() && Pending(x) && y !in created && y.task == x.task
      ensures Renew(x, y).Accounted()
    {
    }

    lemma RenewDated(x: Arming, y: Arming)
      requires Dated() && x in created && y.serial == serials && y.task == x.task && y.dead == clock + y.task.interval
      ensures Renew(x, y).Dated()
    {
    }

    lemma RenewDisciplined(x: Arming, y: Arming)
      requires Disciplined() && own <= clock && Pending(x) && y != x && x in placed && y !in firedAt
      requires y.task == x.task && x.task.kind == Circle && Ripe(x.dead, clock, own, placed[x])
      ensures Renew(x, y).Disciplined()
    {
    }

    lemma RetireGood(x: Arming)
      requires Good() && Pending(x) && x.task.kind == Once
      requires x in placed && Ripe(x.dead, clock, own, placed[x])
      ensures Retire(x).Good() && Leads(Retire(x))
    {
      GoodMeans();
      RetireAccounted(x);
      RetireDated(x);
      RetireDisciplined(x);
      RetireLeads(x);
      Retire(x).GoodOf();
    }

    lemma RetireDated(x: Arming)
      requires Dated()
      ensures Retire(x).Dated()
    {
    }

    lemma RetireLeads(x: Arming)
      requires x !in firedAt
      ensures Leads(Retire(x))
    {
    }

    lemma RetireAccounted(x: Arming)
      requires Accounted() && Pending(x)
      ensures Retire(x).Accounted()
    {
    }

    lemma RetireDisciplined(x: Arming)
      requires Disciplined() && own <= clock && Pending(x) && x.task.kind == Once
      requires x in placed && Ripe(x.dead, clock, own, placed[x])
      requires x.task.id in tasks && tasks[x.task.id] == x.task
      requires forall y :: y in firedAt ==> y.task.id in tasks && tasks[y.task.id] == y.task
      ensures Retire(x).Disciplined()
    {
    }

    lemma CancelGood(x: Arming)
      requires Good() && Pending(x)
      ensures Cancel(x).Good() && Leads(Cancel(x))
    {
      GoodMeans();
      CancelAccounted(x);
      CancelDisciplined(x);
      CancelLeads(x);
    }

    lemma CancelAccounted(x: Arming)
      requires Accounted() && Pending(x)
      ensures Cancel(x).Accounted()
    {
    }

    lemma CancelDisciplined(x: Arming)
      requires Disciplined() && Pending(x)
      ensures Cancel(x).Disciplined()
    {
    }

    lemma CancelLeads(x: Arming)
      ensures Leads(Cancel(x))
    {
    }

    lemma ReplaceGood(x: Arming)
      requires Good() && Pending(x) && x in placed && !placed[x].Direct(x.dead)
      ensures Replace(x).Good() && Leads(Replace(x))
    {
      GoodMeans();
      ReplaceDisciplined(x);
      ReplaceLeads(x);
    }

    lemma ReplaceDisciplined(x: Arming)
      requires Disciplined() && x !in firedAt
      ensures Replace(x).Disciplined()
    {
    }

    lemma ReplaceLeads(x: Arming)
      requires x in placed && !placed[x].Direct(x.dead)
      ensures Leads(Replace(x))
    {
    }
  }

  lemma LeadsSelf(a: Ledger)
    ensures a.Leads(a)
  {
  }

  lemma LeadsOn(a: Ledger, b: Ledger, c: Ledger)
    requires a.Leads(b) && b.Leads(c)
    ensures a.Leads(c)
  {
    assert Key(LEADS, 0);
  }

  /** A whole call: waiting, placing, firing. */
  lemma Whole(a: Ledger, waited: Ledger, ticked: Ledger, z: Ledger)
    requires a.clock <= waited.clock && waited == a.Wait(waited.clock)
    requires ticked == waited.(clock := ticked.clock, own := ticked.own, placed := ticked.placed)
    requires waited.Leads(ticked) && ticked.Leads(z)
    ensures a.Leads(z)
    ensures forall x :: x in z.firedAt && x !in a.firedAt ==> z.firedAt[x] >= waited.clock
  {
    assert Key(LEADS, 0);
  }
}
