/** The writer-first read/write lock: any number of threads, each section under the mutex one step. */
module RwLocks {
  import opened Words
  import opened Seals

  type Tid = nat

  /** Where the threads are, and the lock's own fields. `rwait` and `wwait` sleep on a condition
      variable; `rwoken` and `wwoken` have been woken and will check their condition again once they
      have the mutex. */
  datatype State = State(
    idle: set<Tid>,
    rwait: set<Tid>, rwoken: set<Tid>, reading: set<Tid>,
    wwait: set<Tid>, wwoken: set<Tid>, writing: set<Tid>,
    readCnt: nat, writeCnt: nat, writeFlag: bool)

  /** The sections under the mutex. `ReadLock` and `WriteLock` are the first attempt of an idle thread,
      `ReadRetry` and `WriteRetry` a later one of a woken thread. An unlock names the thread that
      `notify_one` picks if there is a choice. `Wake` is a spurious wakeup. */
  datatype Event =
    | ReadLock(t: Tid) | ReadRetry(t: Tid) | ReadUnlock(t: Tid, pick: Tid)
    | WriteLock(t: Tid) | WriteRetry(t: Tid) | WriteUnlock(t: Tid, pick: Tid)
    | Wake(t: Tid)

  predicate Enabled(s: State, e: Event) {
    match e
    case ReadLock(t) => t in s.idle
    case ReadRetry(t) => t in s.rwoken
    case ReadUnlock(t, w) => t in s.reading && s.readCnt > 0 && (s.wwait != {} ==> w in s.wwait)
    case WriteLock(t) => t in s.idle
    case WriteRetry(t) => t in s.wwoken
    case WriteUnlock(t, w) => t in s.writing && s.writeCnt > 0 && (s.wwait != {} ==> w in s.wwait)
    case Wake(t) => t in s.rwait || t in s.wwait
  }

  function EnterRead(s: State, t: Tid): State {
    if s.writeCnt == 0 then s.(reading := s.reading + {t}, readCnt := s.readCnt + 1) else s.(rwait := s.rwait + {t})
  }

  function EnterWrite(s: State, t: Tid): State {
    if s.readCnt == 0 && !s.writeFlag then s.(writing := s.writing + {t}, writeFlag := true)
    else s.(wwait := s.wwait + {t})
  }

  /** `cond_w.notify_one()`, which wakes the picked thread or, if none sleeps, nobody. */
  function NotifyOne(s: State, w: Tid): State {
    if w in s.wwait then s.(wwait := s.wwait - {w}, wwoken := s.wwoken + {w}) else s
  }

  /** `cond_r.notify_all()`. */
  function NotifyAll(s: State): State {
    s.(rwait := {}, rwoken := s.rwoken + s.rwait)
  }

  function Next(s: State, e: Event): State
    requires Enabled(s, e)
  {
    match e
    case ReadLock(t) => EnterRead(s.(idle := s.idle - {t}), t)
    case ReadRetry(t) => EnterRead(s.(rwoken := s.rwoken - {t}), t)
    case ReadUnlock(t, w) =>
      var out := s.(reading := s.reading - {t}, idle := s.idle + {t}, readCnt := s.readCnt - 1);
      if out.readCnt == 0 && out.writeCnt > 0 then NotifyOne(out, w) else out
    case WriteLock(t) => EnterWrite(s.(idle := s.idle - {t}, writeCnt := s.writeCnt + 1), t)
    case WriteRetry(t) => EnterWrite(s.(wwoken := s.wwoken - {t}), t)
    case WriteUnlock(t, w) =>
      var out := s.(writing := s.writing - {t}, idle := s.idle + {t}, writeCnt := s.writeCnt - 1);
      (if out.writeCnt == 0 then NotifyAll(out) else NotifyOne(out, w)).(writeFlag := false)
    case Wake(t) =>
      if t in s.rwait then s.(rwait := s.rwait - {t}, rwoken := s.rwoken + {t})
      else s.(wwait := s.wwait - {t}, wwoken := s.wwoken + {t})
  }

  /** In how many places `t` is. */
  ghost function Places(s: State, t: Tid): nat {
    One(t in s.idle) + One(t in s.rwait) + One(t in s.rwoken) + One(t in s.reading)
    + One(t in s.wwait) + One(t in s.wwoken) + One(t in s.writing)
  }

  /** No thread is in two places. */
  ghost predicate Apart(s: State) {
    forall t :: Places(s, t) <= 1
  }

  /** The set has `n` elements. */
  ghost predicate Sized(a: set<Tid>, n: nat) {
    SizedSeal(a, n).Kept?
  }

  ghost function SizedSeal(a: set<Tid>, n: nat): Seal {
    if forall k: nat {:trigger Open(k)} :: Open(k) ==> |a| == n then Kept else Broken
  }

  /** The threads that count as writers: those that have the lock and those that want it. */
  ghost function Writers(s: State): set<Tid> {
    s.wwait + s.wwoken + s.writing
  }

  /** The counters are those of the threads. */
  ghost predicate Counted(s: State) {
    && Sized(s.reading, s.readCnt) && Sized(Writers(s), s.writeCnt)
    && Sized(s.writing, if s.writeFlag then 1 else 0)
  }

  /** A writer that has the lock has it alone. */
  ghost predicate Exclusive(s: State) {
    (forall t, u :: t in s.writing && u in s.writing ==> t == u) && (s.writing != {} ==> s.reading == {})
  }

  /** Nobody sleeps in vain: without writers no reader is asleep, and while a writer sleeps the lock
      is held or another writer is awake. */
  ghost predicate NoneForgotten(s: State) {
    && (s.writeCnt == 0 ==> s.rwait == {})
    && (s.wwait != {} && s.reading == {} && s.writing == {} ==> s.wwoken != {})
  }

  ghost predicate Inv(s: State) {
    Apart(s) && Counted(s) && Exclusive(s) && NoneForgotten(s)
  }

  ghost predicate Initial(s: State) {
    s == State(s.idle, {}, {}, {}, {}, {}, {}, 0, 0, false)
  }

  lemma SizedAdd(a: set<Tid>, n: nat, t: Tid)
    requires Sized(a, n) && t !in a
    ensures Sized(a + {t}, n + 1)
  {
    assert Open(0);
  }

  lemma SizedDrop(a: set<Tid>, n: nat, t: Tid)
    requires Sized(a, n) && t in a
    ensures n > 0 && Sized(a - {t}, n - 1)
  {
    assert Open(0);
  }

  lemma SizedNone(a: set<Tid>, n: nat)
    requires Sized(a, n)
    ensures n == 0 <==> a == {}
  {
    assert Open(0);
  }

  lemma ApartStep(s: State, e: Event)
    requires Apart(s) && Enabled(s, e)
    ensures Apart(Next(s, e))
  {
    assert Places(s, e.t) <= 1;
    forall x
      ensures Places(Next(s, e), x) <= 1
    {
      assert Places(s, x) <= 1;
    }
  }

  /** Only a first attempt and an unlock change who counts as a writer. */
  lemma WritersStep(s: State, e: Event)
    requires Apart(s) && Enabled(s, e)
    ensures e.WriteLock? ==> e.t !in Writers(s) && Writers(Next(s, e)) == Writers(s) + {e.t}
    ensures e.WriteUnlock? ==> e.t in Writers(s) && Writers(Next(s, e)) == Writers(s) - {e.t}
    ensures !e.WriteLock? && !e.WriteUnlock? ==> Writers(Next(s, e)) == Writers(s)
  {
    assert Places(s, e.t) <= 1;
  }

  lemma ReadersStep(s: State, e: Event)
    requires Apart(s) && Enabled(s, e)
    ensures (e.ReadLock? || e.ReadRetry?) && s.writeCnt == 0 ==> e.t !in s.reading && Next(s, e).reading == s.reading + {e.t}
    ensures e.ReadUnlock? ==> e.t in s.reading && Next(s, e).reading == s.reading - {e.t}
    ensures !e.ReadUnlock? && !((e.ReadLock? || e.ReadRetry?) && s.writeCnt == 0) ==> Next(s, e).reading == s.reading
  {
    assert Places(s, e.t) <= 1;
  }

  lemma ReadCountStep(s: State, e: Event)
    requires Inv(s) && Enabled(s, e)
    ensures Sized(Next(s, e).reading, Next(s, e).readCnt)
  {
    ReadersStep(s, e);
    if (e.ReadLock? || e.ReadRetry?) && s.writeCnt == 0 {
      SizedAdd(s.reading, s.readCnt, e.t);
    } else if e.ReadUnlock? {
      SizedDrop(s.reading, s.readCnt, e.t);
    }
  }

  lemma WriteCountStep(s: State, e: Event)
    requires Inv(s) && Enabled(s, e)
    ensures Sized(Writers(Next(s, e)), Next(s, e).writeCnt)
  {
    WritersStep(s, e);
    if e.WriteLock? {
      SizedAdd(Writers(s), s.writeCnt, e.t);
    } else if e.WriteUnlock? {
      SizedDrop(Writers(s), s.writeCnt, e.t);
    }
  }

  /** The flag is that of the one writer. */
  lemma HolderStep(s: State, e: Event)
    requires Inv(s) && Enabled(s, e)
    ensures Sized(Next(s, e).writing, if Next(s, e).writeFlag then 1 else 0)
  {
    SizedNone(s.writing, if s.writeFlag then 1 else 0);
    if (e.WriteLock? || e.WriteRetry?) && s.readCnt == 0 && !s.writeFlag {
      SizedAdd(s.writing, 0, e.t);
    } else if e.WriteUnlock? {
      SizedDrop(s.writing, 1, e.t);
    }
  }

  /** Every section keeps the invariant. */
  lemma InvStep(s: State, e: Event)
    requires Inv(s) && Enabled(s, e)
    ensures Inv(Next(s, e))
  {
    ApartStep(s, e);
    ReadCountStep(s, e);
    WriteCountStep(s, e);
    HolderStep(s, e);
    SizedNone(s.writing, if s.writeFlag then 1 else 0);
    SizedNone(s.reading, s.readCnt);
    SizedNone(Next(s, e).reading, Next(s, e).readCnt);
    SizedNone(Writers(s), s.writeCnt);
    SizedNone(Writers(Next(s, e)), Next(s, e).writeCnt);
  }

  /** What can happen next: an idle thread may ask for the lock either way, one that has been woken tries
      again, one that has the lock may give it back, waking any sleeping writer there is, and a sleeper may
      wake without cause. */
  lemma Choices(s: State, t: Tid, pick: Tid)
    requires Inv(s)
    ensures t in s.idle <==> Enabled(s, ReadLock(t))
    ensures t in s.idle <==> Enabled(s, WriteLock(t))
    ensures t in s.rwoken <==> Enabled(s, ReadRetry(t))
    ensures t in s.wwoken <==> Enabled(s, WriteRetry(t))
    ensures t in s.reading && (pick in s.wwait || s.wwait == {}) <==> Enabled(s, ReadUnlock(t, pick))
    ensures t in s.writing && (pick in s.wwait || s.wwait == {}) <==> Enabled(s, WriteUnlock(t, pick))
    ensures t in s.rwait + s.wwait <==> Enabled(s, Wake(t))
  {
    SizedNone(s.reading, s.readCnt);
    SizedNone(Writers(s), s.writeCnt);
  }

  /** A reader gets in, at its first attempt or later, exactly if no writer has the lock or wants it;
      otherwise it goes to sleep. Nobody else moves. */
  lemma ReadAttempt(s: State, e: Event)
    requires Inv(s) && Enabled(s, e) && (e.ReadLock? || e.ReadRetry?)
    ensures var n, free := Next(s, e), Writers(s) == {};
            && n.reading == s.reading + (if free then {e.t} else {})
            && n.rwait == s.rwait + (if free then {} else {e.t})
            && n.idle == s.idle - (if e.ReadLock? then {e.t} else {})
            && n.rwoken == s.rwoken - (if e.ReadRetry? then {e.t} else {})
            && n.wwait == s.wwait && n.wwoken == s.wwoken && n.writing == s.writing
  {
    SizedNone(Writers(s), s.writeCnt);
  }

  /** A writer gets in, at its first attempt or later, exactly if nobody has the lock; otherwise it
      goes to sleep. Nobody else moves. */
  lemma WriteAttempt(s: State, e: Event)
    requires Inv(s) && Enabled(s, e) && (e.WriteLock? || e.WriteRetry?)
    ensures var n, free := Next(s, e), s.reading == {} && s.writing == {};
            && n.writing == s.writing + (if free then {e.t} else {})
            && n.wwait == s.wwait + (if free then {} else {e.t})
            && n.idle == s.idle - (if e.WriteLock? then {e.t} else {})
            && n.wwoken == s.wwoken - (if e.WriteRetry? then {e.t} else {})
            && n.rwait == s.rwait && n.rwoken == s.rwoken && n.reading == s.reading
  {
    SizedNone(s.reading, s.readCnt);
    SizedNone(s.writing, if s.writeFlag then 1 else 0);
  }

  /** The last reader to leave wakes one sleeping writer, if there is one, and nobody else wakes. */
  lemma ReadRelease(s: State, e: Event)
    requires Inv(s) && Enabled(s, e) && e.ReadUnlock?
    ensures var n, woken := Next(s, e), if s.reading == {e.t} && s.wwait != {} then {e.pick} else {};
            && woken <= s.wwait && n.wwait == s.wwait - woken && n.wwoken == s.wwoken + woken
            && n.reading == s.reading - {e.t} && n.idle == s.idle + {e.t}
            && n.rwait == s.rwait && n.rwoken == s.rwoken && n.writing == s.writing
  {
    SizedDrop(s.reading, s.readCnt, e.t);
    SizedNone(s.reading - {e.t}, s.readCnt - 1);
    SizedNone(Writers(s), s.writeCnt);
  }

  /** A writer that leaves wakes all readers if no other writer has or wants the lock, and otherwise one
      sleeping writer, if there is one. */
  lemma WriteRelease(s: State, e: Event)
    requires Inv(s) && Enabled(s, e) && e.WriteUnlock?
    ensures var n, last := Next(s, e), Writers(s) == {e.t};
            var woken := if s.wwait != {} then {e.pick} else {};
            && woken <= s.wwait && n.wwait == s.wwait - woken && n.wwoken == s.wwoken + woken
            && n.rwait == (if last then {} else s.rwait) && n.rwoken == s.rwoken + (if last then s.rwait else {})
            && n.writing == {} && n.idle == s.idle + {e.t} && n.reading == s.reading
  {
    LastWriter(s, e.t);
    assert Places(s, e.t) <= 1;
    assert s.writing == {e.t};
    assert Writers(s) == {e.t} ==> s.wwait == {};
  }

  lemma LastWriter(s: State, t: Tid)
    requires Inv(s) && t in s.writing
    ensures s.writeCnt > 0 && (s.writeCnt == 1 <==> Writers(s) == {t})
  {
    SizedDrop(Writers(s), s.writeCnt, t);
    SizedNone(Writers(s) - {t}, s.writeCnt - 1);
  }

  /** A spurious wakeup wakes one sleeper. */
  lemma SpuriousWake(s: State, e: Event)
    requires Inv(s) && Enabled(s, e) && e.Wake?
    ensures var n := Next(s, e);
            && n.rwait == s.rwait - {e.t} && n.wwait == s.wwait - {e.t}
            && n.rwoken == s.rwoken + (if e.t in s.rwait then {e.t} else {})
            && n.wwoken == s.wwoken + (if e.t in s.wwait then {e.t} else {})
            && n.idle == s.idle && n.reading == s.reading && n.writing == s.writing
  {
    assert Places(s, e.t) <= 1;
  }

  ghost predicate Run(s: State, es: seq<Event>)
    decreases |es|
  {
    es != [] ==> Enabled(s, es[0]) && Run(Next(s, es[0]), es[1..])
  }

  ghost function After(s: State, es: seq<Event>): State
    requires Run(s, es)
    decreases |es|
  {
    if es == [] then s else After(Next(s, es[0]), es[1..])
  }

  /** Some run of any threads leads to the state. */
  ghost predicate Reachable(s: State) {
    exists s0, es :: Initial(s0) && Run(s0, es) && After(s0, es) == s
  }

  lemma {:induction false} RunInv(s: State, es: seq<Event>)
    requires Inv(s) && Run(s, es)
    ensures Inv(After(s, es))
    decreases |es|
  {
    if es != [] {
      InvStep(s, es[0]);
      RunInv(Next(s, es[0]), es[1..]);
    }
  }

  /** In every reachable state the counters are right, writers are alone and nobody is forgotten. */
  lemma ReachableInv(s: State)
    requires Reachable(s)
    ensures Inv(s)
  {
    var s0, es :| Initial(s0) && Run(s0, es) && After(s0, es) == s;
    assert Open(0);
    assert Inv(s0);
    RunInv(s0, es);
  }

  ghost predicate WritersThroughout(s: State, es: seq<Event>)
    requires Run(s, es)
    decreases |es|
  {
    s.writeCnt > 0 && (es != [] ==> WritersThroughout(Next(s, es[0]), es[1..]))
  }

  /** Writers first: as long as some writer has the lock or wants it, no reader is let in. */
  lemma {:induction false} WriterPriority(s: State, es: seq<Event>)
    requires Run(s, es) && WritersThroughout(s, es)
    ensures After(s, es).reading <= s.reading
    decreases |es|
  {
    if es != [] {
      WriterPriority(Next(s, es[0]), es[1..]);
    }
  }

  ghost function Waiting(s: State): set<Tid> {
    s.rwait + s.rwoken + s.wwait + s.wwoken
  }

  ghost function Holding(s: State): set<Tid> {
    s.reading + s.writing
  }

  ghost function Awake(s: State): set<Tid> {
    s.rwoken + s.wwoken
  }

  /** No wakeup is lost: if the lock is free and somebody waits, some waiting thread is awake and gets
      the lock with its next attempt. */
  lemma NoLostWakeup(s: State)
    requires Reachable(s) && Holding(s) == {} && Waiting(s) != {}
    ensures exists e: Event :: (e.ReadRetry? || e.WriteRetry?) && Enabled(s, e) && e.t in Holding(Next(s, e))
  {
    ReachableInv(s);
    SizedNone(s.reading, s.readCnt);
    SizedNone(s.writing, if s.writeFlag then 1 else 0);
    SizedNone(Writers(s), s.writeCnt);
    if s.writeCnt > 0 {
      var t :| t in s.wwoken;
      assert Enabled(s, WriteRetry(t)) && t in Holding(Next(s, WriteRetry(t)));
    } else {
      var t :| t in s.rwoken;
      assert Enabled(s, ReadRetry(t)) && t in Holding(Next(s, ReadRetry(t)));
    }
  }

  /** What threads do that only want to be done: unlock what they have, and try again once awake. */
  predicate Winding(e: Event) {
    e.ReadUnlock? || e.WriteUnlock? || e.ReadRetry? || e.WriteRetry?
  }

  /** Somebody can go on, unless all are idle. */
  lemma WindingEnabled(s: State)
    requires Inv(s) && (Holding(s) != {} || Waiting(s) != {})
    ensures exists e :: Winding(e) && Enabled(s, e)
  {
    var w := if s.wwait != {} then var w :| w in s.wwait; w else 0;
    SizedNone(s.reading, s.readCnt);
    SizedNone(Writers(s), s.writeCnt);
    if t :| t in s.reading {
      assert Enabled(s, ReadUnlock(t, w));
    } else if t :| t in s.writing {
      assert Enabled(s, WriteUnlock(t, w));
    } else if t :| t in s.wwoken {
      assert Enabled(s, WriteRetry(t));
    } else {
      var t :| t in s.rwoken;
      assert Enabled(s, ReadRetry(t));
    }
  }

  /** `h` threads have the lock, `w` wait for it and `a` of these are awake, of at most `n` in all. */
  ghost predicate Tally(s: State, h: nat, w: nat, a: nat, n: nat) {
    Sized(Holding(s), h) && Sized(Waiting(s), w) && Sized(Awake(s), a) && a <= w && h + w <= n
  }

  /** How many more steps there can be. */
  function Rank(h: nat, w: nat, a: nat, n: nat): nat {
    (2 * w + h) * (n + 1) + a
  }

  lemma UnlockSets(s: State, e: Event)
    requires Apart(s) && Enabled(s, e) && (e.ReadUnlock? || e.WriteUnlock?)
    ensures e.t in Holding(s) && Holding(Next(s, e)) == Holding(s) - {e.t} && Waiting(Next(s, e)) == Waiting(s)
  {
    assert Places(s, e.t) <= 1;
  }

  lemma RetrySets(s: State, e: Event)
    requires Apart(s) && Enabled(s, e) && (e.ReadRetry? || e.WriteRetry?)
    ensures e.t in Awake(s) && Awake(Next(s, e)) == Awake(s) - {e.t} && e.t in Waiting(s) && e.t !in Holding(s)
    ensures if e.t in Holding(Next(s, e)) then
              Holding(Next(s, e)) == Holding(s) + {e.t} && Waiting(Next(s, e)) == Waiting(s) - {e.t}
            else Holding(Next(s, e)) == Holding(s) && Waiting(Next(s, e)) == Waiting(s)
  {
    assert Places(s, e.t) <= 1;
  }

  /** Fewer places to leave, or as many and fewer threads awake. */
  predicate Lower(h': nat, w': nat, a': nat, h: nat, w: nat, a: nat) {
    2 * w' + h' < 2 * w + h || (2 * w' + h' == 2 * w + h && a' < a)
  }

  lemma UnlockStep(s: State, e: Event, h: nat, w: nat, a: nat, n: nat) returns (h': nat, w': nat, a': nat)
    requires Inv(s) && Enabled(s, e) && (e.ReadUnlock? || e.WriteUnlock?) && Tally(s, h, w, a, n)
    ensures Tally(Next(s, e), h', w', a', n) && Lower(h', w', a', h, w, a)
  {
    UnlockSets(s, e);
    SizedDrop(Holding(s), h, e.t);
    h', w', a' := h - 1, w, |Awake(Next(s, e))|;
    AwakeBound(Next(s, e), w', a');
  }

  lemma RetryStep(s: State, e: Event, h: nat, w: nat, a: nat, n: nat) returns (h': nat, w': nat, a': nat)
    requires Inv(s) && Enabled(s, e) && (e.ReadRetry? || e.WriteRetry?) && Tally(s, h, w, a, n)
    ensures Tally(Next(s, e), h', w', a', n) && Lower(h', w', a', h, w, a)
  {
    RetrySets(s, e);
    var to := Next(s, e);
    h', w', a' := RetryTally(e.t, Holding(s), Waiting(s), Awake(s), Holding(to), Waiting(to), Awake(to), h, w, a);
  }

  lemma RetryTally(t: Tid, holding: set<Tid>, waiting: set<Tid>, awake: set<Tid>,
                   holding': set<Tid>, waiting': set<Tid>, awake': set<Tid>, h: nat, w: nat, a: nat)
    returns (h': nat, w': nat, a': nat)
    requires Sized(holding, h) && Sized(waiting, w) && Sized(awake, a)
    requires t in awake && t in waiting && t !in holding && awake' == awake - {t}
    requires if t in holding' then holding' == holding + {t} && waiting' == waiting - {t}
             else holding' == holding && waiting' == waiting
    ensures Sized(holding', h') && Sized(waiting', w') && Sized(awake', a')
    ensures h' + w' == h + w && a' == a - 1 && w - 1 <= w' && Lower(h', w', a', h, w, a)
  {
    SizedDrop(awake, a, t);
    SizedDrop(waiting, w, t);
    SizedAdd(holding, h, t);
    h', w', a' := if t in holding' then h + 1 else h, if t in holding' then w - 1 else w, a - 1;
  }

  lemma AwakeBound(s: State, w: nat, a: nat)
    requires Sized(Waiting(s), w) && a == |Awake(s)|
    ensures Sized(Awake(s), a) && a <= w
  {
    assert Open(0);
    Subset(Awake(s), Waiting(s));
  }

  lemma Subset(a: set<Tid>, b: set<Tid>)
    requires a <= b
    ensures |a| <= |b|
  {
    assert b == a + (b - a);
  }

  lemma RankDown(h': nat, w': nat, a': nat, h: nat, w: nat, a: nat, n: nat)
    requires Lower(h', w', a', h, w, a) && a' <= n
    ensures Rank(h', w', a', n) < Rank(h, w, a, n)
  {
    var f', f := 2 * w' + h', 2 * w + h;
    assert f' < f ==> f' * (n + 1) + (n + 1) == (f' + 1) * (n + 1) <= f * (n + 1);
  }

  /** Every winding step brings the end nearer. */
  lemma {:induction false} WindingBound(s: State, es: seq<Event>, h: nat, w: nat, a: nat, n: nat)
    requires Inv(s) && Run(s, es) && (forall e :: e in es ==> Winding(e)) && Tally(s, h, w, a, n)
    ensures |es| <= Rank(h, w, a, n)
    decreases |es|
  {
    if es != [] {
      var h', w', a';
      assert Winding(es[0]);
      if es[0].ReadUnlock? || es[0].WriteUnlock? {
        h', w', a' := UnlockStep(s, es[0], h, w, a, n);
      } else {
        h', w', a' := RetryStep(s, es[0], h, w, a, n);
      }
      InvStep(s, es[0]);
      RankDown(h', w', a', h, w, a, n);
      WindingBound(Next(s, es[0]), es[1..], h', w', a', n);
    }
  }

  /** Everybody gets through: from a reachable state, threads that only unlock what they have and try
      again when awake take a bounded number of steps, whatever their order and whomever each
      notification picks, and they can stop only where all are idle. */
  lemma EveryoneGetsThrough(s: State, es: seq<Event>, h: nat, w: nat, a: nat)
    requires Reachable(s) && Run(s, es) && forall e :: e in es ==> Winding(e)
    requires Sized(Holding(s), h) && Sized(Waiting(s), w) && Sized(Awake(s), a)
    ensures |es| <= Rank(h, w, a, h + w)
    ensures (forall e :: Winding(e) ==> !Enabled(After(s, es), e)) ==> Holding(After(s, es)) == Waiting(After(s, es)) == {}
  {
    ReachableInv(s);
    RunInv(s, es);
    AwakeFew(s, w, a);
    WindingBound(s, es, h, w, a, h + w);
    if Holding(After(s, es)) != {} || Waiting(After(s, es)) != {} {
      WindingEnabled(After(s, es));
    }
  }

  lemma AwakeFew(s: State, w: nat, a: nat)
    requires Sized(Waiting(s), w) && Sized(Awake(s), a)
    ensures a <= w
  {
    assert Open(0);
    Subset(Awake(s), Waiting(s));
  }

  /** Writer 1 has the lock, writer 2 and reader 0 sleep. */
  const CROWDED: State := State({}, {0}, {}, {}, {2}, {}, {1}, 0, 2, true)

  /** Writer 1 gives the lock back and takes it again before writer 2, notified, can try. */
  const LAP: seq<Event> := [WriteUnlock(1, 2), WriteLock(1), WriteRetry(2)]

  function Laps(n: nat): seq<Event> {
    if n == 0 then [] else LAP + Laps(n - 1)
  }

  /** Getting through takes the others' restraint: one writer that comes back can keep a reader and
      even another writer waiting forever. */
  lemma {:induction false} Starvation(n: nat)
    ensures Reachable(CROWDED) && |Laps(n)| == 3 * n && Run(CROWDED, Laps(n)) && After(CROWDED, Laps(n)) == CROWDED
  {
    if n == 0 {
      CrowdedReachable();
    } else {
      Starvation(n - 1);
      var a := Next(CROWDED, LAP[0]);
      var b := Next(a, LAP[1]);
      assert Next(b, LAP[2]) == CROWDED;
      assert Laps(n)[1..] == LAP[1..] + Laps(n - 1) && Laps(n)[1..][1..] == LAP[2..] + Laps(n - 1);
      assert Laps(n)[1..][1..][1..] == Laps(n - 1);
      assert Run(b, Laps(n)[1..][1..]) && After(b, Laps(n)[1..][1..]) == CROWDED;
      assert Run(a, Laps(n)[1..]) && After(a, Laps(n)[1..]) == CROWDED;
    }
  }

  lemma CrowdedReachable()
    ensures Reachable(CROWDED)
  {
    var s0 := State({0, 1, 2}, {}, {}, {}, {}, {}, {}, 0, 0, false);
    var es := [WriteLock(1), WriteLock(2), ReadLock(0)];
    var s1 := Next(s0, es[0]);
    var s2 := Next(s1, es[1]);
    assert Next(s2, es[2]) == CROWDED;
    assert es[1..] == [WriteLock(2), ReadLock(0)] && es[1..][1..] == [ReadLock(0)] && es[1..][1..][1..] == [];
    assert Initial(s0) && Run(s0, es) && After(s0, es) == CROWDED;
  }

  /** The lock itself. A method is one section under the mutex; `state` says where it leaves the threads. */
  class WfirstRwLock {
    var readCnt: nat
    var writeCnt: nat
    var writeFlag: bool
    ghost var state: State

    ghost predicate Valid()
      reads this
    {
      Inv(state) && readCnt == state.readCnt && writeCnt == state.writeCnt && writeFlag == state.writeFlag
    }

    constructor (ghost threads: set<Tid>)
      ensures Valid() && Initial(state) && state.idle == threads
    {
      readCnt, writeCnt, writeFlag := 0, 0, false;
      state := State(threads, {}, {}, {}, {}, {}, {}, 0, 0, false);
      new;
      assert Open(0);
    }

    /** Up to the return of `read_lock` or to falling asleep in it. */
    method ReadLock(ghost e: Event) returns (entered: bool)
      requires Valid() && Enabled(state, e) && (e.ReadLock? || e.ReadRetry?)
      modifies this
      ensures Valid() && state == Next(old(state), e)
      ensures entered <==> e.t in state.reading
    {
      InvStep(state, e);
      assert Places(state, e.t) <= 1;
      entered := writeCnt == 0;
      if entered {
        readCnt := readCnt + 1;
      }
      state := Next(state, e);
    }

    method ReadUnlock(ghost e: Event) returns (notifyOne: bool)
      requires Valid() && Enabled(state, e) && e.ReadUnlock?
      modifies this
      ensures Valid() && state == Next(old(state), e)
      ensures notifyOne <==> state.reading == {} && state.writeCnt > 0
    {
      InvStep(state, e);
      SizedNone(Next(state, e).reading, Next(state, e).readCnt);
      readCnt := readCnt - 1;
      notifyOne := readCnt == 0 && writeCnt > 0;
      state := Next(state, e);
    }

    /** Up to the return of `write_lock` or to falling asleep in it; `first` is the call itself. */
    method WriteLock(first: bool, ghost e: Event) returns (entered: bool)
      requires Valid() && Enabled(state, e) && if first then e.WriteLock? else e.WriteRetry?
      modifies this
      ensures Valid() && state == Next(old(state), e)
      ensures entered <==> e.t in state.writing
    {
      InvStep(state, e);
      assert Places(state, e.t) <= 1;
      if first {
        writeCnt := writeCnt + 1;
      }
      entered := readCnt == 0 && !writeFlag;
      if entered {
        writeFlag := true;
      }
      state := Next(state, e);
    }

    method WriteUnlock(ghost e: Event) returns (notifyAll: bool)
      requires Valid() && Enabled(state, e) && e.WriteUnlock?
      modifies this
      ensures Valid() && state == Next(old(state), e)
      ensures notifyAll <==> Writers(state) == {}
    {
      InvStep(state, e);
      SizedNone(Writers(Next(state, e)), Next(state, e).writeCnt);
      writeCnt := writeCnt - 1;
      notifyAll := writeCnt == 0;
      writeFlag := false;
      state := Next(state, e);
    }
  }
}
