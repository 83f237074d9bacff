/** The two read-write locks of the pthread exercise, for any number of threads.  A step is one critical
    section under the mutex, ending where the thread unlocks it or waits on a condition; waiting follows
    POSIX.1-2017, so a signal wakes at least one waiter and waiters may also wake by themselves. */
module RwLock {

  type Tid = nat

  /** rwlock-writer-pref.cpp or rwlock-reader-pref.cpp. */
  datatype Policy = WriterFirst | ReaderFirst

  /** Waits are split: Asleep threads are blocked in pthread_cond_wait, Awake ones have been woken and have
      yet to get the mutex back. */
  datatype Pc = Outside | Reading | Writing | ReaderAsleep | ReaderAwake | WriterAsleep | WriterAwake

  datatype State = State(threads: map<Tid, Pc>, readers: int, writers: int, waitingReaders: int, waitingWriters: int)

  datatype Step =
    | ReaderLock(t: Tid)
    | ReaderUnlock(t: Tid, woken: set<Tid>)
    | WriterLock(t: Tid)
    | WriterUnlock(t: Tid, woken: set<Tid>)
    | Spurious(t: Tid)

  function In(s: State, pc: Pc): set<Tid> {
    set t | t in s.threads && s.threads[t] == pc
  }

  /** The loop condition of ReaderLock. */
  predicate ReaderWaits(pol: Policy, s: State) {
    s.writers > 0 || (pol.WriterFirst? && s.waitingWriters > 0)
  }

  predicate WriterWaits(s: State) {
    s.readers > 0 || s.writers > 0
  }

  datatype Wakeup = Nobody | OneWriter | AllReaders

  /** What ReaderUnlock wakes, once the reader has left. */
  function AfterReader(pol: Policy, s: State): Wakeup {
    match pol
    case WriterFirst =>
      if s.readers == 0 && s.waitingWriters > 0 then OneWriter
      else if s.waitingReaders > 0 then AllReaders else Nobody
    case ReaderFirst => if s.readers == 0 then OneWriter else Nobody
  }

  /** What WriterUnlock wakes, once the writer has left. */
  function AfterWriter(pol: Policy, s: State): Wakeup {
    match pol
    case WriterFirst =>
      if s.waitingWriters > 0 then OneWriter else if s.waitingReaders > 0 then AllReaders else Nobody
    case ReaderFirst =>
      if s.waitingReaders > 0 then AllReaders else if s.waitingWriters > 0 then OneWriter else Nobody
  }

  /** pthread_cond_signal wakes some waiters, at least one if there is any; broadcast wakes all. */
  predicate Wakes(s: State, w: Wakeup, woken: set<Tid>) {
    match w
    case Nobody => woken == {}
    case OneWriter => woken <= In(s, WriterAsleep) && (In(s, WriterAsleep) != {} ==> woken != {})
    case AllReaders => woken == In(s, ReaderAsleep)
  }

  function Put(s: State, t: Tid, pc: Pc): State {
    s.(threads := s.threads[t := pc])
  }

  function Wake(s: State, woken: set<Tid>): State {
    s.(threads := map t | t in s.threads ::
      if t in woken && s.threads[t] == ReaderAsleep then ReaderAwake
      else if t in woken && s.threads[t] == WriterAsleep then WriterAwake
      else s.threads[t])
  }

  /** A thread that comes back from the wait first takes itself off the waiting count. */
  function Arrived(s: State, t: Tid): State
    requires t in s.threads
  {
    if s.threads[t] == ReaderAwake then s.(waitingReaders := s.waitingReaders - 1)
    else if s.threads[t] == WriterAwake then s.(waitingWriters := s.waitingWriters - 1)
    else s
  }

  predicate Enabled(pol: Policy, s: State, step: Step) {
    match step
    case ReaderLock(t) => t in s.threads && (s.threads[t] == Outside || s.threads[t] == ReaderAwake)
    case WriterLock(t) => t in s.threads && (s.threads[t] == Outside || s.threads[t] == WriterAwake)
    case ReaderUnlock(t, woken) =>
      t in s.threads && s.threads[t] == Reading && Wakes(s, AfterReader(pol, s.(readers := s.readers - 1)), woken)
    case WriterUnlock(t, woken) =>
      t in s.threads && s.threads[t] == Writing && Wakes(s, AfterWriter(pol, s.(writers := s.writers - 1)), woken)
    case Spurious(t) => t in s.threads && (s.threads[t] == ReaderAsleep || s.threads[t] == WriterAsleep)
  }

  function Do(pol: Policy, s: State, step: Step): State
    requires Enabled(pol, s, step)
  {
    match step
    case ReaderLock(t) =>
      var s1 := Arrived(s, t);
      if ReaderWaits(pol, s1) then Put(s1.(waitingReaders := s1.waitingReaders + 1), t, ReaderAsleep)
      else Put(s1.(readers := s1.readers + 1), t, Reading)
    case WriterLock(t) =>
      var s1 := Arrived(s, t);
      if WriterWaits(s1) then Put(s1.(waitingWriters := s1.waitingWriters + 1), t, WriterAsleep)
      else Put(s1.(writers := s1.writers + 1), t, Writing)
    case ReaderUnlock(t, woken) => Wake(Put(s.(readers := s.readers - 1), t, Outside), woken)
    case WriterUnlock(t, woken) => Wake(Put(s.(writers := s.writers - 1), t, Outside), woken)
    case Spurious(t) => Wake(s, {t})
  }

  // ---------------------------------------------------------------- invariant

  function N(s: State, pc: Pc): nat {
    |In(s, pc)|
  }

  /** The counters count what they are named after. */
  predicate Counts(s: State) {
    && s.readers == N(s, Reading)
    && s.writers == N(s, Writing)
    && s.waitingReaders == N(s, ReaderAsleep) + N(s, ReaderAwake)
    && s.waitingWriters == N(s, WriterAsleep) + N(s, WriterAwake)
  }

  predicate Exclusive(s: State) {
    s.writers <= 1 && (s.writers == 1 ==> s.readers == 0)
  }

  predicate Idle(s: State) {
    s.readers == 0 && s.writers == 0
  }

  /** Sleepers of an idle lock have somebody awake to rely on. */
  predicate Attended(pol: Policy, s: State) {
    match pol
    case WriterFirst =>
      Idle(s) ==>
        && (N(s, WriterAsleep) > 0 ==> N(s, WriterAwake) > 0)
        && (N(s, ReaderAsleep) > 0 ==> N(s, WriterAwake) + N(s, ReaderAwake) > 0)
    case ReaderFirst =>
      && (N(s, ReaderAsleep) > 0 ==> s.writers > 0)
      && (Idle(s) && N(s, WriterAsleep) > 0 ==> N(s, WriterAwake) + N(s, ReaderAwake) > 0)
  }

  predicate Inv(pol: Policy, s: State) {
    Counts(s) && Exclusive(s) && Attended(pol, s)
  }

  // ---------------------------------------------------------------- how many threads are where

  lemma SameCount(s: State, s': State)
    requires s.threads == s'.threads
    ensures forall q :: N(s, q) == N(s', q)
  {
  }

  lemma PutCount(s: State, t: Tid, pc: Pc, q: Pc)
    requires t in s.threads
    ensures N(Put(s, t, pc), q) == N(s, q) + (if q == pc then 1 else 0) - (if q == s.threads[t] then 1 else 0)
  {
    var was, now := In(s, q), In(Put(s, t, pc), q);
    assert now == if q == pc then was + {t} else was - {t};
    if s.threads[t] == q { assert t in was; } else { assert t !in was; }
  }

  lemma PutCounts(s: State, t: Tid, pc: Pc)
    requires t in s.threads
    ensures forall q :: N(Put(s, t, pc), q) == N(s, q) + (if q == pc then 1 else 0) - (if q == s.threads[t] then 1 else 0)
  {
    forall q ensures N(Put(s, t, pc), q) == N(s, q) + (if q == pc then 1 else 0) - (if q == s.threads[t] then 1 else 0) {
      PutCount(s, t, pc, q);
    }
  }

  /** A thread is counted where it is. */
  lemma Present(s: State, t: Tid)
    requires t in s.threads
    ensures N(s, s.threads[t]) > 0
  {
    assert t in In(s, s.threads[t]);
  }

  lemma WakeSets(s: State, woken: set<Tid>)
    ensures In(Wake(s, woken), ReaderAsleep) == In(s, ReaderAsleep) - woken
    ensures In(Wake(s, woken), ReaderAwake) == In(s, ReaderAwake) + In(s, ReaderAsleep) * woken
    ensures In(Wake(s, woken), WriterAsleep) == In(s, WriterAsleep) - woken
    ensures In(Wake(s, woken), WriterAwake) == In(s, WriterAwake) + In(s, WriterAsleep) * woken
    ensures In(Wake(s, woken), Reading) == In(s, Reading) && In(Wake(s, woken), Writing) == In(s, Writing)
    ensures In(s, ReaderAsleep) !! In(s, ReaderAwake) && In(s, WriterAsleep) !! In(s, WriterAwake)
  {
  }

  lemma SplitCard(a: set<Tid>, b: set<Tid>, w: set<Tid>)
    requires a !! b
    ensures |a - w| == |a| - |a * w| && |b + a * w| == |b| + |a * w|
  {
    assert a == (a - w) + (a * w);
    assert b !! (a * w);
  }

  lemma WakeCounts(s: State, woken: set<Tid>)
    ensures N(Wake(s, woken), ReaderAsleep) == N(s, ReaderAsleep) - |In(s, ReaderAsleep) * woken|
    ensures N(Wake(s, woken), ReaderAwake) == N(s, ReaderAwake) + |In(s, ReaderAsleep) * woken|
    ensures N(Wake(s, woken), WriterAsleep) == N(s, WriterAsleep) - |In(s, WriterAsleep) * woken|
    ensures N(Wake(s, woken), WriterAwake) == N(s, WriterAwake) + |In(s, WriterAsleep) * woken|
    ensures N(Wake(s, woken), Reading) == N(s, Reading) && N(Wake(s, woken), Writing) == N(s, Writing)
    ensures s == Wake(s, woken).(threads := s.threads)
  {
    WakeSets(s, woken);
    hide In;
    SplitCard(In(s, ReaderAsleep), In(s, ReaderAwake), woken);
    SplitCard(In(s, WriterAsleep), In(s, WriterAwake), woken);
  }

  /** How many of each kind an allowed wakeup takes. */
  lemma WakeAmounts(s: State, w: Wakeup, woken: set<Tid>)
    requires Wakes(s, w, woken)
    ensures w.Nobody? ==> |In(s, ReaderAsleep) * woken| == 0 && |In(s, WriterAsleep) * woken| == 0
    ensures w.OneWriter? ==> |In(s, ReaderAsleep) * woken| == 0 && (N(s, WriterAsleep) > 0 ==> |In(s, WriterAsleep) * woken| > 0)
    ensures w.AllReaders? ==> |In(s, ReaderAsleep) * woken| == N(s, ReaderAsleep) && |In(s, WriterAsleep) * woken| == 0
  {
    var r, wr := In(s, ReaderAsleep), In(s, WriterAsleep);
    assert r !! wr;
    match w
    case Nobody => assert r * woken == {} && wr * woken == {};
    case OneWriter =>
      assert r * woken == {} && wr * woken == woken;
    case AllReaders => assert r * woken == r && wr * woken == {};
  }

  // ---------------------------------------------------------------- every step keeps the invariant

  lemma LockInv(pol: Policy, s: State, step: Step, t: Tid)
    requires Inv(pol, s) && Enabled(pol, s, step) && (step == ReaderLock(t) || step == WriterLock(t))
    ensures Inv(pol, Do(pol, s, step))
  {
    hide N;
    var s1, s' := Arrived(s, t), Do(pol, s, step);
    SameCount(s, s1);
    Present(s, t);
    PutCounts(s1, t, s'.threads[t]);
    SameCount(s', Put(s1, t, s'.threads[t]));
  }

  lemma SleepersKept(s: State, s1: State, t: Tid)
    requires s1.threads == s.threads && t in s.threads && (s.threads[t] == Reading || s.threads[t] == Writing)
    ensures In(Put(s1, t, Outside), ReaderAsleep) == In(s, ReaderAsleep)
    ensures In(Put(s1, t, Outside), WriterAsleep) == In(s, WriterAsleep)
  {
  }

  lemma UnlockInv(pol: Policy, s: State, step: Step, t: Tid, woken: set<Tid>)
    requires Inv(pol, s) && Enabled(pol, s, step) && (step == ReaderUnlock(t, woken) || step == WriterUnlock(t, woken))
    ensures Inv(pol, Do(pol, s, step))
  {
    hide N, In, Wakes, Wake;
    var s1 := if step.ReaderUnlock? then s.(readers := s.readers - 1) else s.(writers := s.writers - 1);
    var mid := Put(s1, t, Outside);
    SameCount(s, s1);
    Present(s, t);
    PutCounts(s1, t, Outside);
    SleepersKept(s, s1, t);
    WakeCounts(mid, woken);
    WakeAmounts(s, if step.ReaderUnlock? then AfterReader(pol, s1) else AfterWriter(pol, s1), woken);
  }

  lemma SpuriousInv(pol: Policy, s: State, t: Tid)
    requires Inv(pol, s) && Enabled(pol, s, Spurious(t))
    ensures Inv(pol, Do(pol, s, Spurious(t)))
  {
    hide N;
    WakeCounts(s, {t});
    var r, w := In(s, ReaderAsleep) * {t}, In(s, WriterAsleep) * {t};
    assert t in r || t in w;
    assert |r| + |w| > 0;
  }

  lemma StepInv(pol: Policy, s: State, step: Step)
    requires Inv(pol, s) && Enabled(pol, s, step)
    ensures Inv(pol, Do(pol, s, step))
  {
    match step
    case ReaderLock(t) => LockInv(pol, s, step, t);
    case WriterLock(t) => LockInv(pol, s, step, t);
    case ReaderUnlock(t, woken) => UnlockInv(pol, s, step, t, woken);
    case WriterUnlock(t, woken) => UnlockInv(pol, s, step, t, woken);
    case Spurious(t) => SpuriousInv(pol, s, t);
  }

  // ---------------------------------------------------------------- whole runs

  function Initial(threads: set<Tid>): State {
    State(map t | t in threads :: Outside, 0, 0, 0, 0)
  }

  /** Any schedule of any threads, with any wakeups the standard allows. */
  ghost predicate Run(pol: Policy, threads: set<Tid>, ss: seq<State>, steps: seq<Step>) {
    && |ss| == |steps| + 1 && ss[0] == Initial(threads)
    && forall i :: 0 <= i < |steps| ==> Enabled(pol, ss[i], steps[i]) && ss[i + 1] == Do(pol, ss[i], steps[i])
  }

  lemma InitialInv(pol: Policy, threads: set<Tid>)
    ensures Inv(pol, Initial(threads))
  {
    forall q | q != Outside ensures N(Initial(threads), q) == 0 { assert In(Initial(threads), q) == {}; }
  }

  lemma {:induction false} RunInv(pol: Policy, threads: set<Tid>, ss: seq<State>, steps: seq<Step>, i: nat)
    requires Run(pol, threads, ss, steps) && i < |ss|
    ensures Inv(pol, ss[i])
  {
    if i == 0 {
      InitialInv(pol, threads);
    } else {
      RunInv(pol, threads, ss, steps, i - 1);
      StepInv(pol, ss[i - 1], steps[i - 1]);
    }
  }

  /** At most one writer, and never together with a reader. */
  lemma MutualExclusion(pol: Policy, threads: set<Tid>, ss: seq<State>, steps: seq<Step>, i: nat, t: Tid, u: Tid)
    requires Run(pol, threads, ss, steps) && i < |ss| && t in ss[i].threads && u in ss[i].threads && t != u
    ensures ss[i].threads[t] == Writing ==> ss[i].threads[u] != Writing && ss[i].threads[u] != Reading
  {
    RunInv(pol, threads, ss, steps, i);
    var s := ss[i];
    if s.threads[t] == Writing {
      Present(s, t);
      Present(s, u);
      assert t in In(s, Writing);
      assert |In(s, Writing) - {t}| == N(s, Writing) - 1;
      assert In(s, Writing) - {t} == {};
      assert s.threads[u] == Writing <==> u in In(s, Writing);
    }
  }

  /** No lost wakeup: when nobody holds the lock and some thread is asleep, some thread has been woken and
      is about to run. */
  lemma NoLostWakeup(pol: Policy, threads: set<Tid>, ss: seq<State>, steps: seq<Step>, i: nat, t: Tid)
    requires Run(pol, threads, ss, steps) && i < |ss| && t in ss[i].threads
    requires forall u :: u in ss[i].threads ==> ss[i].threads[u] != Reading && ss[i].threads[u] != Writing
    requires ss[i].threads[t] == ReaderAsleep || ss[i].threads[t] == WriterAsleep
    ensures exists u :: u in ss[i].threads && (ss[i].threads[u] == ReaderAwake || ss[i].threads[u] == WriterAwake)
  {
    RunInv(pol, threads, ss, steps, i);
    var s := ss[i];
    Present(s, t);
    assert In(s, Reading) == {} && In(s, Writing) == {};
    assert N(s, ReaderAwake) + N(s, WriterAwake) > 0;
    var u :| u in In(s, ReaderAwake) + In(s, WriterAwake);
  }

  /** With writer preference no reader gets in while a writer waits. */
  lemma WritersFirst(threads: set<Tid>, ss: seq<State>, steps: seq<Step>, i: nat, t: Tid, u: Tid)
    requires Run(WriterFirst, threads, ss, steps) && i < |steps| && t in ss[i].threads && u in ss[i].threads
    requires ss[i].threads[t] != Reading && t in ss[i + 1].threads && ss[i + 1].threads[t] == Reading
    ensures ss[i].threads[u] != WriterAsleep && ss[i].threads[u] != WriterAwake
  {
    RunInv(WriterFirst, threads, ss, steps, i);
    Present(ss[i], u);
    assert steps[i] == ReaderLock(t);
  }

  /** With reader preference a reader sleeps only while a writer is inside. */
  lemma ReadersFirst(threads: set<Tid>, ss: seq<State>, steps: seq<Step>, i: nat, t: Tid)
    requires Run(ReaderFirst, threads, ss, steps) && i < |ss| && t in ss[i].threads && ss[i].threads[t] == ReaderAsleep
    ensures exists u :: u in ss[i].threads && ss[i].threads[u] == Writing
  {
    RunInv(ReaderFirst, threads, ss, steps, i);
    Present(ss[i], t);
    var u :| u in In(ss[i], Writing);
  }

  // ---------------------------------------------------------------- who gets in and who is woken, thread by thread

  /** Some thread is at pc. */
  ghost predicate Anyone(s: State, pc: Pc) {
    exists u :: u in s.threads && s.threads[u] == pc
  }

  lemma AnyoneCount(s: State, pc: Pc)
    ensures Anyone(s, pc) <==> N(s, pc) > 0
  {
    if N(s, pc) > 0 {
      var u :| u in In(s, pc);
    } else if Anyone(s, pc) {
      var u :| u in s.threads && s.threads[u] == pc;
      Present(s, u);
    }
  }

  lemma AllCounted(s: State)
    ensures forall pc :: Anyone(s, pc) <==> N(s, pc) > 0
  {
    forall pc ensures Anyone(s, pc) <==> N(s, pc) > 0 {
      AnyoneCount(s, pc);
    }
  }

  /** Readers share the lock: a reader gets in exactly when no writer is inside and, with writer preference, none is
      waiting; otherwise it sleeps.  Nobody else moves. */
  lemma ReaderEnters(pol: Policy, threads: set<Tid>, ss: seq<State>, steps: seq<Step>, i: nat, t: Tid)
    requires Run(pol, threads, ss, steps) && i < |steps| && steps[i] == ReaderLock(t)
    ensures var s := ss[i];
            var free := !Anyone(s, Writing) && (pol.WriterFirst? ==> !Anyone(s, WriterAsleep) && !Anyone(s, WriterAwake));
            t in s.threads && ss[i + 1].threads == s.threads[t := if free then Reading else ReaderAsleep]
  {
    RunInv(pol, threads, ss, steps, i);
    AllCounted(ss[i]);
    hide Anyone, N;
    assert Enabled(pol, ss[i], steps[i]) && ss[i + 1] == Do(pol, ss[i], steps[i]);
  }

  /** A writer gets in exactly when nobody is inside; otherwise it sleeps.  Nobody else moves. */
  lemma WriterEnters(pol: Policy, threads: set<Tid>, ss: seq<State>, steps: seq<Step>, i: nat, t: Tid)
    requires Run(pol, threads, ss, steps) && i < |steps| && steps[i] == WriterLock(t)
    ensures var s := ss[i];
            var free := !Anyone(s, Reading) && !Anyone(s, Writing);
            t in s.threads && ss[i + 1].threads == s.threads[t := if free then Writing else WriterAsleep]
  {
    RunInv(pol, threads, ss, steps, i);
    AllCounted(ss[i]);
    hide Anyone, N;
    assert Enabled(pol, ss[i], steps[i]) && ss[i + 1] == Do(pol, ss[i], steps[i]);
  }

  /** Whom an unlock wakes: nobody, some of the sleeping writers, or all the sleeping readers. */
  ghost predicate Woke(s: State, s': State, t: Tid, w: Wakeup) {
    && s'.threads.Keys == s.threads.Keys && t in s.threads && s'.threads[t] == Outside
    && (forall u :: u in s.threads && u != t ==>
          match s.threads[u]
          case ReaderAsleep => s'.threads[u] == if w.AllReaders? then ReaderAwake else ReaderAsleep
          case WriterAsleep => s'.threads[u] == WriterAsleep || (w.OneWriter? && s'.threads[u] == WriterAwake)
          case pc => s'.threads[u] == pc)
    && (w.OneWriter? && Anyone(s, WriterAsleep) ==>
          exists u :: u in s.threads && s.threads[u] == WriterAsleep && s'.threads[u] == WriterAwake)
  }

  /** The last reader to leave lets a waiting writer go on; with writer preference, if no writer waits or readers
      remain, all waiting readers do. */
  lemma ReaderLeaves(pol: Policy, threads: set<Tid>, ss: seq<State>, steps: seq<Step>, i: nat, t: Tid, woken: set<Tid>)
    requires Run(pol, threads, ss, steps) && i < |steps| && steps[i] == ReaderUnlock(t, woken)
    ensures var s := ss[i];
            var last := forall u :: u in s.threads && s.threads[u] == Reading ==> u == t;
            var writer := Anyone(s, WriterAsleep) || Anyone(s, WriterAwake);
            var reader := Anyone(s, ReaderAsleep) || Anyone(s, ReaderAwake);
            Woke(s, ss[i + 1], t,
                 match pol
                 case WriterFirst => if last && writer then OneWriter else if reader then AllReaders else Nobody
                 case ReaderFirst => if last then OneWriter else Nobody)
  {
    RunInv(pol, threads, ss, steps, i);
    AllCounted(ss[i]);
    hide Anyone, N;
    LastReader(ss[i], t);
    assert Enabled(pol, ss[i], steps[i]) && ss[i + 1] == Do(pol, ss[i], steps[i]);
    Awakened(ss[i], ss[i].(readers := ss[i].readers - 1), t, AfterReader(pol, ss[i].(readers := ss[i].readers - 1)), woken);
  }

  /** A writer that leaves lets its own kind go on first, or the other, as the lock prefers. */
  lemma WriterLeaves(pol: Policy, threads: set<Tid>, ss: seq<State>, steps: seq<Step>, i: nat, t: Tid, woken: set<Tid>)
    requires Run(pol, threads, ss, steps) && i < |steps| && steps[i] == WriterUnlock(t, woken)
    ensures var s := ss[i];
            var writer := Anyone(s, WriterAsleep) || Anyone(s, WriterAwake);
            var reader := Anyone(s, ReaderAsleep) || Anyone(s, ReaderAwake);
            Woke(s, ss[i + 1], t,
                 match pol
                 case WriterFirst => if writer then OneWriter else if reader then AllReaders else Nobody
                 case ReaderFirst => if reader then AllReaders else if writer then OneWriter else Nobody)
  {
    RunInv(pol, threads, ss, steps, i);
    AllCounted(ss[i]);
    hide Anyone, N;
    assert Enabled(pol, ss[i], steps[i]) && ss[i + 1] == Do(pol, ss[i], steps[i]);
    Awakened(ss[i], ss[i].(writers := ss[i].writers - 1), t, AfterWriter(pol, ss[i].(writers := ss[i].writers - 1)), woken);
  }

  lemma LastReader(s: State, t: Tid)
    requires t in s.threads && s.threads[t] == Reading
    ensures N(s, Reading) == 1 <==> forall u :: u in s.threads && s.threads[u] == Reading ==> u == t
  {
    assert t in In(s, Reading);
    if forall u :: u in s.threads && s.threads[u] == Reading ==> u == t {
      assert In(s, Reading) == {t};
    } else {
      var u :| u in s.threads && s.threads[u] == Reading && u != t;
      assert u in In(s, Reading) - {t} && |In(s, Reading) - {t}| == N(s, Reading) - 1;
    }
  }

  lemma Awakened(s: State, s1: State, t: Tid, w: Wakeup, woken: set<Tid>)
    requires t in s.threads && (s.threads[t] == Reading || s.threads[t] == Writing) && s1.threads == s.threads
    requires Wakes(s, w, woken)
    ensures Woke(s, Wake(Put(s1, t, Outside), woken), t, w)
  {
    var s' := Wake(Put(s1, t, Outside), woken);
    assert s'.threads.Keys == s.threads.Keys;
    if w.OneWriter? && Anyone(s, WriterAsleep) {
      var v :| v in s.threads && s.threads[v] == WriterAsleep;
      assert v in In(s, WriterAsleep);
      var u :| u in woken;
      assert u in In(s, WriterAsleep) && s'.threads[u] == WriterAwake;
    }
  }

  /** Two readers can be inside at once. */
  lemma TwoReaders(pol: Policy, threads: set<Tid>, t: Tid, u: Tid) returns (ss: seq<State>, steps: seq<Step>)
    requires t in threads && u in threads && t != u
    ensures Run(pol, threads, ss, steps) && t in ss[|ss| - 1].threads && u in ss[|ss| - 1].threads
    ensures ss[|ss| - 1].threads[t] == Reading && ss[|ss| - 1].threads[u] == Reading
  {
    var s0 := Initial(threads);
    var s1 := Do(pol, s0, ReaderLock(t));
    var s2 := Do(pol, s1, ReaderLock(u));
    ss, steps := [s0, s1, s2], [ReaderLock(t), ReaderLock(u)];
  }

  /** Every thread can take its next step at any time, and any one sleeping writer can be the one that a signal wakes. */
  lemma AnyThreadCanMove(pol: Policy, threads: set<Tid>, ss: seq<State>, steps: seq<Step>, i: nat, t: Tid)
    requires Run(pol, threads, ss, steps) && i < |ss| && t in ss[i].threads
    ensures var s := ss[i];
            match s.threads[t]
            case Outside => Enabled(pol, s, ReaderLock(t)) && Enabled(pol, s, WriterLock(t))
            case ReaderAwake => Enabled(pol, s, ReaderLock(t))
            case WriterAwake => Enabled(pol, s, WriterLock(t))
            case ReaderAsleep => Enabled(pol, s, Spurious(t))
            case WriterAsleep => Enabled(pol, s, Spurious(t))
            case Reading =>
              if !AfterReader(pol, s.(readers := s.readers - 1)).OneWriter? then
                exists woken :: Enabled(pol, s, ReaderUnlock(t, woken))
              else if !Anyone(s, WriterAsleep) then Enabled(pol, s, ReaderUnlock(t, {}))
              else forall u :: u in s.threads && s.threads[u] == WriterAsleep ==> Enabled(pol, s, ReaderUnlock(t, {u}))
            case Writing =>
              if !AfterWriter(pol, s.(writers := s.writers - 1)).OneWriter? then
                exists woken :: Enabled(pol, s, WriterUnlock(t, woken))
              else if !Anyone(s, WriterAsleep) then Enabled(pol, s, WriterUnlock(t, {}))
              else forall u :: u in s.threads && s.threads[u] == WriterAsleep ==> Enabled(pol, s, WriterUnlock(t, {u}))
  {
    var s := ss[i];
    WakesSome(s, AfterReader(pol, s.(readers := s.readers - 1)));
    WakesSome(s, AfterWriter(pol, s.(writers := s.writers - 1)));
    hide Wakes, Anyone, AfterReader, AfterWriter;
    if s.threads[t] == Reading && !AfterReader(pol, s.(readers := s.readers - 1)).OneWriter? {
      var woken :| Wakes(s, AfterReader(pol, s.(readers := s.readers - 1)), woken);
      assert Enabled(pol, s, ReaderUnlock(t, woken));
    } else if s.threads[t] == Writing && !AfterWriter(pol, s.(writers := s.writers - 1)).OneWriter? {
      var woken :| Wakes(s, AfterWriter(pol, s.(writers := s.writers - 1)), woken);
      assert Enabled(pol, s, WriterUnlock(t, woken));
    }
  }

  lemma WakesSome(s: State, w: Wakeup)
    ensures exists woken :: Wakes(s, w, woken)
    ensures w.OneWriter? ==>
              if !Anyone(s, WriterAsleep) then Wakes(s, w, {})
              else forall u :: u in s.threads && s.threads[u] == WriterAsleep ==> Wakes(s, w, {u})
  {
    match w
    case Nobody => assert Wakes(s, w, {});
    case AllReaders => assert Wakes(s, w, In(s, ReaderAsleep));
    case OneWriter =>
      if Anyone(s, WriterAsleep) {
        var u :| u in s.threads && s.threads[u] == WriterAsleep;
        assert Wakes(s, w, {u});
      } else {
        assert In(s, WriterAsleep) == {};
        assert Wakes(s, w, {});
      }
  }
}
