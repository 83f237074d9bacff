/** The bounded buffer of master-worker.c: masters produce the items 0 .. total - 1, workers consume them,
    with one mutex and the conditions fill and empty.  A step is one stretch under the mutex, or the unlocked
    test at the top of a thread's loop; a wait may also end spuriously. */
module MasterWorker {

  /** The shared variables: counters and the first curr_buf_size cells of the buffer. */
  datatype Shared = Shared(total: int, max: int, produced: nat, consumed: nat, items: seq<nat>)

  datatype Outcome = Waits | Ends | Moves

  /** One pass of a master from its inner while loop on. */
  function Produce(m: Shared): (Shared, Outcome) {
    if |m.items| >= m.max && m.produced < m.total then (m, Waits)
    else if m.produced == m.total then (m, Ends)
    else (m.(items := m.items + [m.produced], produced := m.produced + 1), Moves)
  }

  /** One pass of a worker from its inner while loop on; past the wait an empty buffer means that all is consumed. */
  function Consume(m: Shared): (Shared, Outcome) {
    if |m.items| == 0 && m.consumed < m.total then (m, Waits)
    else if m.consumed == m.total || |m.items| == 0 then (m, Ends)
    else (m.(items := m.items[..|m.items| - 1], consumed := m.consumed + 1), Moves)
  }

  class Buffer {
    const total: int
    const max: int
    const cells: array<nat>
    var curr: nat
    var produced: nat
    var consumed: nat

    ghost predicate Valid()
      reads this, cells
    {
      curr <= cells.Length && cells.Length == (if max < 0 then 0 else max) && ItemsOk(Value())
    }

    ghost function Value(): Shared
      requires curr <= cells.Length
      reads this, cells
    {
      Shared(total, max, produced, consumed, cells[..curr])
    }

    constructor (total: nat, max: int)
      ensures Valid() && fresh(cells) && Value() == Shared(total, max, 0, 0, [])
    {
      this.total, this.max := total, max;
      cells := new nat[if max < 0 then 0 else max];
      curr, produced, consumed := 0, 0, 0;
    }

    method MasterPass() returns (o: Outcome)
      requires Valid()
      modifies this, cells
      ensures Valid() && (Value(), o) == Produce(old(Value()))
      ensures o.Moves? <==> old(produced) < total && old(curr) < max
      ensures produced == old(produced) + (if o.Moves? then 1 else 0) && consumed == old(consumed)
      ensures o.Waits? <==> old(produced) < total && old(curr) >= max
    {
      if curr >= max && produced < total {
        return Waits;
      }
      if produced == total {
        return Ends;
      }
      cells[curr] := produced;
      curr := curr + 1;
      produced := produced + 1;
      assert cells[..curr] == old(cells[..curr]) + [old(produced)];
      o := Moves;
    }

    method WorkerPass() returns (o: Outcome, item: nat)
      requires Valid()
      modifies this
      ensures Valid() && (Value(), o) == Consume(old(Value()))
      ensures o.Moves? ==> |old(Value()).items| > 0 && item == old(Value()).items[|old(Value()).items| - 1]
      ensures o.Moves? <==> old(curr) > 0
      ensures consumed == old(consumed) + (if o.Moves? then 1 else 0) && produced == old(produced)
      ensures o.Waits? <==> old(consumed) < total && old(curr) == 0
    {
      if curr == 0 && consumed < total {
        return Waits, 0;
      }
      if consumed == total {
        return Ends, 0;
      }
      curr := curr - 1;
      item := cells[curr];
      consumed := consumed + 1;
      assert cells[..curr] == old(cells[..curr])[..curr];
      o := Moves;
    }
  }

  /** What the shared variables alone always satisfy. */
  ghost predicate ItemsOk(m: Shared) {
    m.produced == m.consumed + |m.items| && m.produced <= m.total
  }

  // ---------------------------------------------------------------- threads

  datatype Phase = Top | Inside | Blocked | Done

  datatype State = State(mem: Shared, eaten: seq<nat>, masters: seq<Phase>, workers: seq<Phase>)

  datatype Step =
    | MasterTop(i: nat) | MasterPass(i: nat) | MasterSpurious(i: nat)
    | WorkerTop(i: nat) | WorkerPass(i: nat) | WorkerSpurious(i: nat)

  /** pthread_cond_broadcast. */
  function WakeAll(ts: seq<Phase>): (r: seq<Phase>)
    ensures |r| == |ts|
    ensures forall i :: 0 <= i < |ts| ==> r[i] == if ts[i].Blocked? then Inside else ts[i]
  {
    seq(|ts|, i requires 0 <= i < |ts| => if ts[i].Blocked? then Inside else ts[i])
  }

  predicate Enabled(s: State, step: Step) {
    match step
    case MasterTop(i) => i < |s.masters| && s.masters[i].Top?
    case MasterPass(i) => i < |s.masters| && s.masters[i].Inside?
    case MasterSpurious(i) => i < |s.masters| && s.masters[i].Blocked?
    case WorkerTop(i) => i < |s.workers| && s.workers[i].Top?
    case WorkerPass(i) => i < |s.workers| && s.workers[i].Inside?
    case WorkerSpurious(i) => i < |s.workers| && s.workers[i].Blocked?
  }

  function After(o: Outcome): Phase {
    match o case Waits => Blocked case Ends => Done case Moves => Top
  }

  function Do(s: State, step: Step): State
    requires Enabled(s, step)
  {
    match step
    case MasterTop(i) =>
      s.(masters := s.masters[i := if s.mem.produced < s.mem.total then Inside else Done])
    case MasterPass(i) =>
      var (m, o) := Produce(s.mem);
      s.(mem := m, masters := s.masters[i := After(o)],
         workers := if o.Moves? then WakeAll(s.workers) else s.workers)
    case MasterSpurious(i) => s.(masters := s.masters[i := Inside])
    case WorkerTop(i) =>
      s.(workers := s.workers[i := if s.mem.consumed < s.mem.total then Inside else Done])
    case WorkerPass(i) =>
      var (m, o) := Consume(s.mem);
      s.(mem := m, workers := s.workers[i := After(o)],
         eaten := if o.Moves? then s.eaten + [s.mem.items[|s.mem.items| - 1]] else s.eaten,
         masters := if o.Moves? then WakeAll(s.masters) else s.masters)
    case WorkerSpurious(i) => s.(workers := s.workers[i := Inside])
  }

  // ---------------------------------------------------------------- invariant

  function Range(n: nat): (s: seq<nat>)
    ensures |s| == n && forall i :: 0 <= i < n ==> s[i] == i
  {
    seq(n, i requires 0 <= i < n => i)
  }

  /** Every produced item is in the buffer or eaten, and in only one of the two. */
  ghost predicate Once(m: Shared, eaten: seq<nat>) {
    |eaten| == m.consumed && multiset(eaten) + multiset(m.items) == multiset(Range(m.produced))
  }

  ghost predicate Inv(s: State) {
    && ItemsOk(s.mem) && |s.mem.items| <= (if s.mem.max < 0 then 0 else s.mem.max)
    && Once(s.mem, s.eaten)
    && (forall i :: 0 <= i < |s.masters| ==> MasterOk(s.mem, s.masters[i]))
    && (forall i :: 0 <= i < |s.workers| ==> WorkerOk(s.mem, s.workers[i]))
  }

  /** A blocked master faces a full buffer and had something to produce; a finished one has nothing left to. */
  ghost predicate MasterOk(m: Shared, t: Phase) {
    (t.Blocked? ==> |m.items| >= m.max && m.total >= 1) && (t.Done? ==> m.produced == m.total)
  }

  /** A blocked worker faces an empty buffer with items still to come. */
  ghost predicate WorkerOk(m: Shared, t: Phase) {
    (t.Blocked? ==> |m.items| == 0 && m.produced < m.total) && (t.Done? ==> m.consumed == m.total)
  }

  function Initial(total: nat, max: int, masters: nat, workers: nat): State {
    State(Shared(total, max, 0, 0, []), [], seq(masters, _ => Top), seq(workers, _ => Top))
  }

  lemma InitialInv(total: nat, max: int, masters: nat, workers: nat)
    ensures Inv(Initial(total, max, masters, workers))
  {
    assert Range(0) == [];
  }

  lemma ProduceOnce(m: Shared, eaten: seq<nat>)
    requires Once(m, eaten)
    ensures Once(Produce(m).0, eaten)
  {
    assert Range(m.produced + 1) == Range(m.produced) + [m.produced];
  }

  lemma ConsumeOnce(m: Shared, eaten: seq<nat>)
    requires Once(m, eaten) && Consume(m).1.Moves?
    ensures Once(Consume(m).0, eaten + [m.items[|m.items| - 1]])
  {
    assert m.items == m.items[..|m.items| - 1] + [m.items[|m.items| - 1]];
  }

  lemma MasterPassInv(s: State, i: nat)
    requires Inv(s) && Enabled(s, MasterPass(i))
    ensures Inv(Do(s, MasterPass(i)))
  {
    hide Once;
    ProduceOnce(s.mem, s.eaten);
    var s' := Do(s, MasterPass(i));
    forall j | 0 <= j < |s'.masters| ensures MasterOk(s'.mem, s'.masters[j]) {
      assert MasterOk(s.mem, s.masters[j]);
    }
    forall j | 0 <= j < |s'.workers| ensures WorkerOk(s'.mem, s'.workers[j]) {
      assert WorkerOk(s.mem, s.workers[j]);
    }
  }

  lemma WorkerPassInv(s: State, i: nat)
    requires Inv(s) && Enabled(s, WorkerPass(i))
    ensures Inv(Do(s, WorkerPass(i)))
  {
    hide Once;
    if Consume(s.mem).1.Moves? {
      ConsumeOnce(s.mem, s.eaten);
    }
    var s' := Do(s, WorkerPass(i));
    forall j | 0 <= j < |s'.masters| ensures MasterOk(s'.mem, s'.masters[j]) {
      assert MasterOk(s.mem, s.masters[j]);
    }
    forall j | 0 <= j < |s'.workers| ensures WorkerOk(s'.mem, s'.workers[j]) {
      assert WorkerOk(s.mem, s.workers[j]);
    }
  }

  lemma StepInv(s: State, step: Step)
    requires Inv(s) && Enabled(s, step)
    ensures Inv(Do(s, step))
  {
    hide Once, Produce, Consume;
    match step
    case MasterPass(i) => MasterPassInv(s, i);
    case WorkerPass(i) => WorkerPassInv(s, i);
    case MasterTop(_) =>
    case MasterSpurious(_) =>
    case WorkerTop(_) =>
    case WorkerSpurious(_) =>
  }

  lemma StepFixed(s: State, step: Step)
    requires Enabled(s, step)
    ensures var s' := Do(s, step);
            && s'.mem.total == s.mem.total && s'.mem.max == s.mem.max
            && |s'.masters| == |s.masters| && |s'.workers| == |s.workers|
  {
  }

  // ---------------------------------------------------------------- whole runs

  ghost predicate Run(ss: seq<State>, steps: seq<Step>, total: nat, max: int, masters: nat, workers: nat) {
    && |ss| == |steps| + 1 && ss[0] == Initial(total, max, masters, workers)
    && forall i :: 0 <= i < |steps| ==> Enabled(ss[i], steps[i]) && ss[i + 1] == Do(ss[i], steps[i])
  }

  lemma {:induction false} RunInv(ss: seq<State>, steps: seq<Step>, total: nat, max: int, masters: nat,
                                  workers: nat, i: nat)
    requires Run(ss, steps, total, max, masters, workers) && i < |ss|
    ensures Inv(ss[i])
    ensures ss[i].mem.total == total && ss[i].mem.max == max && |ss[i].masters| == masters && |ss[i].workers| == workers
  {
    if i == 0 {
      InitialInv(total, max, masters, workers);
    } else {
      hide Inv, Do, Enabled;
      RunInv(ss, steps, total, max, masters, workers, i - 1);
      StepInv(ss[i - 1], steps[i - 1]);
      StepFixed(ss[i - 1], steps[i - 1]);
    }
  }

  /** Over every run a pass that moves on raises its own counter by one, and nothing else moves the counters. */
  lemma CountersMove(ss: seq<State>, steps: seq<Step>, total: nat, max: int, masters: nat, workers: nat, i: nat)
    requires Run(ss, steps, total, max, masters, workers) && i < |steps|
    ensures var m, m' := ss[i].mem, ss[i + 1].mem;
            && m'.produced == m.produced + (if steps[i].MasterPass? && m.produced < total && |m.items| < max then 1 else 0)
            && m'.consumed == m.consumed + (if steps[i].WorkerPass? && |m.items| > 0 then 1 else 0)
            && (m'.consumed > m.consumed ==> |ss[i + 1].eaten| == |ss[i].eaten| + 1)
            && (m'.produced == m.produced && m'.consumed == m.consumed ==> m' == m && ss[i + 1].eaten == ss[i].eaten)
  {
    RunInv(ss, steps, total, max, masters, workers, i);
    hide Once;
    assert Enabled(ss[i], steps[i]) && ss[i + 1] == Do(ss[i], steps[i]);
  }

  /** The buffer holds produced minus consumed items, never more than its size, and each item produced so far
      is in the buffer or has been consumed, once. */
  lemma Conservation(ss: seq<State>, steps: seq<Step>, total: nat, max: nat, masters: nat, workers: nat, i: nat)
    requires Run(ss, steps, total, max, masters, workers) && i < |ss|
    ensures var m := ss[i].mem;
            && |m.items| == m.produced - m.consumed && |m.items| <= max && m.produced <= total
            && multiset(ss[i].eaten) + multiset(m.items) == multiset(Range(m.produced))
  {
    RunInv(ss, steps, total, max, masters, workers, i);
  }

  /** Once a worker has finished, all of 0 .. total - 1 have been consumed, each exactly once. */
  lemma AllConsumed(ss: seq<State>, steps: seq<Step>, total: nat, max: nat, masters: nat, workers: nat, i: nat, w: nat)
    requires Run(ss, steps, total, max, masters, workers) && i < |ss| && w < workers
    requires w < |ss[i].workers| && ss[i].workers[w].Done?
    ensures multiset(ss[i].eaten) == multiset(Range(total))
  {
    RunInv(ss, steps, total, max, masters, workers, i);
    assert WorkerOk(ss[i].mem, ss[i].workers[w]);
    assert ss[i].mem.items == [];
  }

  predicate Stuck(s: State) {
    && (forall i :: 0 <= i < |s.masters| ==> s.masters[i].Blocked? || s.masters[i].Done?)
    && (forall i :: 0 <= i < |s.workers| ==> s.workers[i].Blocked? || s.workers[i].Done?)
  }

  predicate Finished(s: State) {
    (forall i :: 0 <= i < |s.masters| ==> s.masters[i].Done?) && (forall i :: 0 <= i < |s.workers| ==> s.workers[i].Done?)
  }

  /** With a positive buffer size and a thread of each kind, the threads are only ever all at rest because all
      have finished. */
  lemma NoDeadlock(ss: seq<State>, steps: seq<Step>, total: nat, max: int, masters: nat, workers: nat, i: nat)
    requires Run(ss, steps, total, max, masters, workers) && i < |ss|
    requires 1 <= max && 1 <= masters && 1 <= workers
    ensures Stuck(ss[i]) ==> Finished(ss[i])
  {
    RunInv(ss, steps, total, max, masters, workers, i);
    var s := ss[i];
    assert MasterOk(s.mem, s.masters[0]) && WorkerOk(s.mem, s.workers[0]);
  }

  /** The first k masters and the first l workers wait, the others have not started. */
  function Halfway(total: nat, max: int, masters: nat, workers: nat, k: nat, l: nat): State {
    State(Shared(total, max, 0, 0, []), [], seq(masters, i => if i < k then Blocked else Top),
          seq(workers, i => if i < l then Blocked else Top))
  }

  lemma NextWorker(total: nat, max: int, masters: nat, workers: nat, k: nat, l: nat)
    requires 1 <= total && max <= 0 && l < workers
    ensures var s := Halfway(total, max, masters, workers, k, l);
            && Enabled(s, WorkerTop(l)) && Enabled(Do(s, WorkerTop(l)), WorkerPass(l))
            && Do(Do(s, WorkerTop(l)), WorkerPass(l)) == Halfway(total, max, masters, workers, k, l + 1)
  {
  }

  lemma NextMaster(total: nat, max: int, masters: nat, workers: nat, k: nat, l: nat)
    requires 1 <= total && max <= 0 && k < masters
    ensures var s := Halfway(total, max, masters, workers, k, l);
            && Enabled(s, MasterTop(k)) && Enabled(Do(s, MasterTop(k)), MasterPass(k))
            && Do(Do(s, MasterTop(k)), MasterPass(k)) == Halfway(total, max, masters, workers, k + 1, l)
  {
  }

  lemma Extend(ss: seq<State>, steps: seq<Step>, total: nat, max: int, masters: nat, workers: nat, a: Step, b: Step)
    returns (ss': seq<State>, steps': seq<Step>)
    requires Run(ss, steps, total, max, masters, workers) && Enabled(ss[|ss| - 1], a)
    requires Enabled(Do(ss[|ss| - 1], a), b)
    ensures Run(ss', steps', total, max, masters, workers) && ss'[|ss'| - 1] == Do(Do(ss[|ss| - 1], a), b)
  {
    hide Enabled, Do;
    var s := Do(ss[|ss| - 1], a);
    ss', steps' := ss + [s, Do(s, b)], steps + [a, b];
  }

  /** With no cell to fill, one thread after the other comes to its wait. */
  lemma {:induction false} Blocking(total: nat, max: int, masters: nat, workers: nat, k: nat, l: nat)
    returns (ss: seq<State>, steps: seq<Step>)
    requires 1 <= total && max <= 0 && k <= masters && l <= workers
    ensures Run(ss, steps, total, max, masters, workers) && ss[|ss| - 1] == Halfway(total, max, masters, workers, k, l)
    decreases k + l
  {
    if k + l == 0 {
      ss, steps := [Initial(total, max, masters, workers)], [];
    } else {
      hide Run, Halfway, Do, Enabled;
      if l > 0 {
        ss, steps := Blocking(total, max, masters, workers, k, l - 1);
        NextWorker(total, max, masters, workers, k, l - 1);
        ss, steps := Extend(ss, steps, total, max, masters, workers, WorkerTop(l - 1), WorkerPass(l - 1));
      } else {
        ss, steps := Blocking(total, max, masters, workers, k - 1, l);
        NextMaster(total, max, masters, workers, k - 1, l);
        ss, steps := Extend(ss, steps, total, max, masters, workers, MasterTop(k - 1), MasterPass(k - 1));
      }
    }
  }

  ghost predicate Deadlocks(total: nat, max: int, masters: nat, workers: nat) {
    exists ss, steps :: Run(ss, steps, total, max, masters, workers) && Stuck(ss[|ss| - 1]) && !Finished(ss[|ss| - 1])
  }

  /** With threads of both kinds, a state where every unfinished thread waits is reachable exactly when the buffer
      has no cells and there is something to produce. */
  lemma DeadlockExactly(total: nat, max: int, masters: nat, workers: nat)
    requires 1 <= masters && 1 <= workers
    ensures Deadlocks(total, max, masters, workers) <==> max <= 0 && 1 <= total
  {
    if max <= 0 && 1 <= total {
      var ss, steps := Blocking(total, max, masters, workers, masters, workers);
      assert ss[|ss| - 1].masters[0].Blocked?;
    } else if Deadlocks(total, max, masters, workers) {
      var ss, steps :| Run(ss, steps, total, max, masters, workers) && Stuck(ss[|ss| - 1]) && !Finished(ss[|ss| - 1]);
      if max >= 1 {
        NoDeadlock(ss, steps, total, max, masters, workers, |ss| - 1);
      } else {
        RunInv(ss, steps, total, max, masters, workers, |ss| - 1);
      }
    }
  }
}
