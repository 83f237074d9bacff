/** pipewrite, piperead and pipeclose of pipe.c with the sleep, wakeup and kill of proc.c.  pipewrite tests for
    a kill before every byte, so a writer holds the pipe lock over several steps and a kill may fall between
    them; a stretch of piperead or pipeclose under the lock is one step.  A process that goes to sleep releases
    the pipe lock while it still holds its own process lock (Dozing), and only then becomes SLEEPING; wakeup
    takes every process lock, so a step that calls it cannot finish past a dozing process. */
module Pipe {
  import opened Basics
  import opened PipeBuffer

  type Pid = nat

  /** Inside: holding the pipe lock, with `put` bytes stored since it was taken. */
  datatype Rest = Ready | Inside(put: nat) | Dozing | Asleep

  /** A process outside the pipe, or in piperead for n bytes, or in pipewrite with i bytes done. */
  datatype Proc = Out | Reader(n: nat, rest: Rest) | Writer(src: seq<Byte>, i: nat, rest: Rest)

  /** written and got are all bytes ever stored by pipewrite and delivered by piperead. */
  datatype State = State(buf: Buf, readopen: bool, writeopen: bool, holder: Option<Pid>, procs: map<Pid, Proc>,
                         killed: set<Pid>, written: seq<Byte>, got: seq<Byte>)

  datatype Step =
    | StartRead(p: Pid, n: nat)
    | StartWrite(p: Pid, src: seq<Byte>)
    | RunReader(p: Pid)
    | Enter(p: Pid)        // a writer takes the pipe lock
    | PutByte(p: Pid)
    | Fail(p: Pid)         // pipewrite returns -1
    | FullUp(p: Pid)       // wakeup(&pi->nread) and sleep on a full pipe
    | Finish(p: Pid)       // wakeup(&pi->nread) and return
    | FallAsleep(p: Pid)
    | Kill(p: Pid)
    | CloseWrite
    | CloseRead

  predicate Resting(q: Proc) {
    !q.Out? && (q.rest.Dozing? || q.rest.Asleep?)
  }

  predicate NobodyDozing(s: State) {
    forall p :: p in s.procs && !s.procs[p].Out? ==> !s.procs[p].rest.Dozing?
  }

  function Woken(q: Proc): Proc {
    match q
    case Reader(n, Asleep) => Reader(n, Ready)
    case Writer(src, i, Asleep) => Writer(src, i, Ready)
    case _ => q
  }

  /** wakeup(&pi->nread). */
  function WakeReaders(s: State): State {
    s.(procs := map p | p in s.procs :: if s.procs[p].Reader? then Woken(s.procs[p]) else s.procs[p])
  }

  /** wakeup(&pi->nwrite). */
  function WakeWriters(s: State): State {
    s.(procs := map p | p in s.procs :: if s.procs[p].Writer? then Woken(s.procs[p]) else s.procs[p])
  }

  /** The reader finds nothing and somebody may still write. */
  predicate ReaderSleeps(s: State) {
    Empty(s.buf) && s.writeopen
  }

  predicate Writing(s: State, p: Pid) {
    p in s.procs && s.procs[p].Writer? && s.procs[p].rest.Inside? && s.procs[p].i <= |s.procs[p].src|
  }

  /** pipewrite has a byte left but gives up. */
  predicate GivesUp(s: State, p: Pid)
    requires Writing(s, p)
  {
    s.procs[p].i < |s.procs[p].src| && (!s.readopen || p in s.killed)
  }

  predicate Enabled(s: State, step: Step) {
    match step
    case StartRead(p, _) => p in s.procs && s.procs[p].Out?
    case StartWrite(p, _) => p in s.procs && s.procs[p].Out?
    case RunReader(p) =>
      p in s.procs && s.procs[p].Reader? && s.procs[p].rest.Ready? && s.holder.None? && (s.readopen || s.writeopen)
      && (!ReaderSleeps(s) ==> NobodyDozing(s))
    case Enter(p) =>
      p in s.procs && s.procs[p].Writer? && s.procs[p].rest.Ready? && s.holder.None? && (s.readopen || s.writeopen)
    case PutByte(p) => Writing(s, p) && s.procs[p].i < |s.procs[p].src| && !GivesUp(s, p) && !Full(s.buf)
    case Fail(p) => Writing(s, p) && GivesUp(s, p)
    case FullUp(p) =>
      Writing(s, p) && s.procs[p].i < |s.procs[p].src| && !GivesUp(s, p) && Full(s.buf) && NobodyDozing(s)
    case Finish(p) => Writing(s, p) && s.procs[p].i == |s.procs[p].src| && NobodyDozing(s)
    case FallAsleep(p) => p in s.procs && !s.procs[p].Out? && s.procs[p].rest.Dozing?
    case Kill(p) => p in s.procs
    case CloseWrite => s.writeopen && s.holder.None? && NobodyDozing(s)
    case CloseRead => s.readopen && s.holder.None? && NobodyDozing(s)
  }

  function SetProc(s: State, p: Pid, q: Proc): State {
    s.(procs := s.procs[p := q])
  }

  function Do(s: State, step: Step): State
    requires Ok(s.buf) && Enabled(s, step)
  {
    match step
    case StartRead(p, n) => SetProc(s, p, Reader(n, Ready))
    case StartWrite(p, src) => SetProc(s, p, Writer(src, 0, Ready))
    case RunReader(p) =>
      if ReaderSleeps(s) then SetProc(s, p, if p in s.killed then Out else Reader(s.procs[p].n, Dozing))
      else
        var k := Min(s.procs[p].n, Count(s.buf));
        WakeWriters(SetProc(s.(buf := GetAll(s.buf, k), got := s.got + Pending(s.buf)[..k]), p, Out))
    case Enter(p) => SetProc(s.(holder := Some(p)), p, Writer(s.procs[p].src, s.procs[p].i, Inside(0)))
    case PutByte(p) =>
      var q := s.procs[p];
      var ch := q.src[q.i];
      SetProc(s.(buf := Put(s.buf, ch), written := s.written + [ch]), p, Writer(q.src, q.i + 1, Inside(q.rest.put + 1)))
    case Fail(p) => SetProc(s.(holder := None), p, Out)
    case FullUp(p) => WakeReaders(SetProc(s.(holder := None), p, Writer(s.procs[p].src, s.procs[p].i, Dozing)))
    case Finish(p) => WakeReaders(SetProc(s.(holder := None), p, Out))
    case FallAsleep(p) =>
      SetProc(s, p, if s.procs[p].Reader? then Reader(s.procs[p].n, Asleep)
                    else Writer(s.procs[p].src, s.procs[p].i, Asleep))
    case Kill(p) => SetProc(s.(killed := s.killed + {p}), p, Woken(s.procs[p]))
    case CloseWrite => WakeReaders(s.(writeopen := false))
    case CloseRead => WakeWriters(s.(readopen := false))
  }

  // ---------------------------------------------------------------- invariant

  /** Bytes the holder of the pipe lock has stored since it took it. */
  function Stored(s: State): nat {
    if s.holder.Some? && s.holder.value in s.procs && s.procs[s.holder.value].Writer?
       && s.procs[s.holder.value].rest.Inside?
    then s.procs[s.holder.value].rest.put else 0
  }

  /** Process p is inside exactly when it holds the pipe lock; a resting writer faces a full pipe with an open
      read end, a resting reader an open write end. */
  predicate ProcOk(s: State, p: Pid)
    requires p in s.procs
  {
    match s.procs[p]
    case Out => s.holder != Some(p)
    case Reader(_, rest) => s.holder != Some(p) && !rest.Inside? && (Resting(s.procs[p]) ==> s.writeopen)
    case Writer(src, i, rest) =>
      && i <= |src| && (rest.Inside? <==> s.holder == Some(p)) && (rest.Inside? && rest.put > 0 ==> s.readopen)
      && (Resting(s.procs[p]) ==> i < |src| && Full(s.buf) && s.readopen)
  }

  /** Readers and writers do not rest at the same time. */
  predicate Apart(s: State) {
    forall p, q :: p in s.procs && q in s.procs && s.procs[p].Reader? && s.procs[q].Writer? ==>
      !Resting(s.procs[p]) || !Resting(s.procs[q])
  }

  ghost predicate Inv(s: State) {
    && Ok(s.buf) && s.written == s.got + Pending(s.buf)
    && Stored(s) <= Count(s.buf) && (s.holder.Some? ==> s.holder.value in s.procs)
    && (forall p :: p in s.procs ==> ProcOk(s, p))
    && Apart(s)
  }

  function Initial(procs: set<Pid>): State {
    State(Buf(seq(PIPESIZE, _ => 0), 0, 0), true, true, None, map p | p in procs :: Out, {}, [], [])
  }

  lemma InitialInv(procs: set<Pid>)
    ensures Inv(Initial(procs))
  {
  }

  lemma DrainInv(s: State, p: Pid)
    requires Inv(s) && Enabled(s, RunReader(p)) && !ReaderSleeps(s)
    ensures Inv(Do(s, RunReader(p)))
  {
    hide Pending, Count, GetAll;
    var s' := Do(s, RunReader(p));
    var k := Min(s.procs[p].n, Count(s.buf));
    GetAllPending(s.buf, k);
    assert Pending(s.buf) == Pending(s.buf)[..k] + Pending(s.buf)[k..];
    forall q | q in s'.procs ensures ProcOk(s', q) && (s'.procs[q].Writer? ==> !Resting(s'.procs[q])) {
      assert ProcOk(s, q);
    }
  }

  lemma PutByteInv(s: State, p: Pid)
    requires Inv(s) && Enabled(s, PutByte(p))
    ensures Inv(Do(s, PutByte(p)))
  {
    hide Pending, Put;
    var s' := Do(s, PutByte(p));
    PutPending(s.buf, s.procs[p].src[s.procs[p].i]);
    assert ProcOk(s, p);
    forall q | q in s'.procs ensures ProcOk(s', q) {
      assert ProcOk(s, q);
    }
  }

  lemma WakeReadersInv(s: State, step: Step)
    requires Inv(s) && Enabled(s, step) && (step.FullUp? || step.Finish? || step.CloseWrite?)
    ensures Inv(Do(s, step))
  {
    hide Pending, Count;
    var s' := Do(s, step);
    forall q | q in s'.procs ensures ProcOk(s', q) && (s'.procs[q].Reader? ==> !Resting(s'.procs[q])) {
      assert ProcOk(s, q);
    }
  }

  lemma StepInv(s: State, step: Step)
    requires Inv(s) && Enabled(s, step)
    ensures Inv(Do(s, step))
  {
    hide Pending, Count, GetAll, Put;
    if step.RunReader? && !ReaderSleeps(s) {
      DrainInv(s, step.p);
    } else if step.PutByte? {
      PutByteInv(s, step.p);
    } else if step.FullUp? || step.Finish? || step.CloseWrite? {
      WakeReadersInv(s, step);
    } else {
      OtherInv(s, step);
    }
  }

  /** A step that changes one process, and at most takes or releases the pipe lock for it. */
  lemma LocalInv(s: State, s': State, p: Pid)
    requires Inv(s) && p in s.procs && p in s'.procs && s'.procs == s.procs[p := s'.procs[p]]
    requires s' == s.(procs := s'.procs, killed := s'.killed, holder := s'.holder)
    requires s'.holder == s.holder || (s.holder == None && s'.holder == Some(p)) || (s.holder == Some(p) && s'.holder == None)
    requires ProcOk(s', p) && (s'.holder == Some(p) ==> Stored(s') == 0)
    requires Resting(s'.procs[p]) ==>
               (s'.procs[p].Reader? && Empty(s.buf))
               || (Resting(s.procs[p]) && (s.procs[p].Reader? <==> s'.procs[p].Reader?))
    ensures Inv(s')
  {
    hide Pending, Count;
    FullEmpty(s.buf);
    forall q | q in s'.procs ensures ProcOk(s', q) {
      assert ProcOk(s, q);
    }
  }

  lemma OtherInv(s: State, step: Step)
    requires Inv(s) && Enabled(s, step) && !(step.RunReader? && !ReaderSleeps(s))
    requires !step.PutByte? && !step.FullUp? && !step.Finish? && !step.CloseWrite?
    ensures Inv(Do(s, step))
  {
    hide Pending, Count, GetAll, Put, Apart;
    if step.CloseRead? {
      CloseReadInv(s);
    } else {
      assert ProcOk(s, step.p);
      if s.holder == Some(step.p) && step.Kill? {
        assert Do(s, step) == s.(killed := s.killed + {step.p});
        KilledInv(s, step.p);
      } else {
        LocalInv(s, Do(s, step), step.p);
      }
    }
  }

  lemma KilledInv(s: State, p: Pid)
    requires Inv(s)
    ensures Inv(s.(killed := s.killed + {p}))
  {
    hide Pending, Count;
    var s' := s.(killed := s.killed + {p});
    forall q | q in s'.procs ensures ProcOk(s', q) {
      assert ProcOk(s, q);
    }
  }

  lemma CloseReadInv(s: State)
    requires Inv(s) && Enabled(s, CloseRead)
    ensures Inv(Do(s, CloseRead))
  {
    hide Pending, Count;
    var s' := Do(s, CloseRead);
    forall q | q in s'.procs ensures ProcOk(s', q) && (s'.procs[q].Writer? ==> !Resting(s'.procs[q])) {
      assert ProcOk(s, q);
    }
  }

  // ---------------------------------------------------------------- sleeping readers

  predicate RestingReader(s: State, p: Pid) {
    p in s.procs && s.procs[p].Reader? && Resting(s.procs[p])
  }

  /** If p is a resting reader, the pipe is empty or a writer that has just stored something still holds the
      pipe lock. */
  predicate Fine(s: State, p: Pid) {
    RestingReader(s, p) ==> Empty(s.buf) || Stored(s) > 0
  }

  /** A writer that was killed after it stored bytes in this stretch gives up, while reader p rests. */
  predicate Strands(s: State, step: Step, p: Pid) {
    step.Fail? && step.p in s.killed && Stored(s) > 0 && RestingReader(s, p)
  }

  /** wakeup(&pi->nread) is called. */
  predicate WakesReaders(step: Step) {
    step.FullUp? || step.Finish? || step.CloseWrite?
  }

  /** A step leaves a reader asleep on a pipe that is not empty exactly when it strands that reader. */
  lemma FineExact(s: State, step: Step, p: Pid)
    requires Inv(s) && Enabled(s, step) && Fine(s, p) && p in s.procs
    ensures Fine(Do(s, step), p) <==> !Strands(s, step, p)
  {
    hide Pending, GetAll, Count, Put, Apart;
    FullEmpty(s.buf);
    assert ProcOk(s, p);
    assert s.holder.Some? ==> ProcOk(s, s.holder.value);
    if step.PutByte? || step.Fail? || step.FullUp? || step.Finish? {
      FineWriter(s, step, p);
    } else if step.Enter? || step.RunReader? {
      assert ProcOk(s, step.p);
    }
  }

  lemma FineWriter(s: State, step: Step, p: Pid)
    requires Inv(s) && Enabled(s, step) && Fine(s, p) && p in s.procs
    requires step.PutByte? || step.Fail? || step.FullUp? || step.Finish?
    ensures Fine(Do(s, step), p) <==> !Strands(s, step, p)
  {
    hide Pending, GetAll, Count, Put, Apart;
    FullEmpty(s.buf);
    assert ProcOk(s, p) && ProcOk(s, step.p);
  }

  /** A wakeup reaches every resting reader. */
  lemma WokenUp(s: State, step: Step, p: Pid)
    requires Inv(s) && Enabled(s, step) && WakesReaders(step) && p in s.procs
    ensures !RestingReader(Do(s, step), p)
  {
    hide Pending, Count;
  }

  // ---------------------------------------------------------------- whole runs

  ghost predicate Run(procs: set<Pid>, ss: seq<State>, steps: seq<Step>) {
    && |ss| == |steps| + 1 && ss[0] == Initial(procs)
    && forall i :: 0 <= i < |steps| ==> Next(ss[i], steps[i], ss[i + 1])
  }

  ghost predicate Next(s: State, step: Step, s': State) {
    Ok(s.buf) && Enabled(s, step) && s' == Do(s, step)
  }

  lemma {:induction false} RunInv(procs: set<Pid>, ss: seq<State>, steps: seq<Step>, i: nat)
    requires Run(procs, ss, steps) && i < |ss|
    ensures Inv(ss[i])
  {
    hide Inv, Do, Enabled;
    if i == 0 {
      InitialInv(procs);
    } else {
      RunInv(procs, ss, steps, i - 1);
      assert Next(ss[i - 1], steps[i - 1], ss[i]);
      StepInv(ss[i - 1], steps[i - 1]);
    }
  }

  /** Readers get exactly the bytes written, in order, however often the counters wrap, and at most PIPESIZE
      bytes are in flight. */
  lemma Fifo(procs: set<Pid>, ss: seq<State>, steps: seq<Step>, i: nat)
    requires Run(procs, ss, steps) && i < |ss|
    ensures ss[i].got <= ss[i].written && |ss[i].written| - |ss[i].got| <= PIPESIZE
  {
    RunInv(procs, ss, steps, i);
    assert |Pending(ss[i].buf)| == Count(ss[i].buf);
  }

  /** What a step adds to the bytes written and to the bytes delivered: a writer its next byte, a reader that finds
      something, or nobody to wait for, as much as it asked for and the pipe has. */
  lemma StepBytes(procs: set<Pid>, ss: seq<State>, steps: seq<Step>, i: nat)
    requires Run(procs, ss, steps) && i < |steps|
    ensures var s, s', step := ss[i], ss[i + 1], steps[i];
            && (if step.PutByte? then
                  && step.p in s.procs && s.procs[step.p].Writer? && s.procs[step.p].i < |s.procs[step.p].src|
                  && s'.written == s.written + [s.procs[step.p].src[s.procs[step.p].i]]
                else s'.written == s.written)
            && |s.got| <= |s.written|
            && (if step.RunReader? && (s.got != s.written || !s.writeopen) then
                  && step.p in s.procs && s.procs[step.p].Reader?
                  && |s'.got| == |s.got| + Min(s.procs[step.p].n, |s.written| - |s.got|)
                else s'.got == s.got)
  {
    RunInv(procs, ss, steps, i);
    FullEmpty(ss[i].buf);
    hide Pending, GetAll, Put;
    assert Next(ss[i], steps[i], ss[i + 1]);
  }

  /** The bytes process p adds in steps k up to j. */
  ghost function AddedBy(ss: seq<State>, steps: seq<Step>, p: Pid, k: nat, j: nat): seq<Byte>
    requires k <= j < |ss| == |steps| + 1 && forall i :: 0 <= i < |steps| ==> |ss[i].written| <= |ss[i + 1].written|
    decreases j
  {
    if j == k then []
    else
      AddedBy(ss, steps, p, k, j - 1)
      + if steps[j - 1] == PutByte(p) then ss[j].written[|ss[j - 1].written|..] else []
  }

  lemma OnlyGrows(procs: set<Pid>, ss: seq<State>, steps: seq<Step>)
    requires Run(procs, ss, steps)
    ensures forall i :: 0 <= i < |steps| ==> |ss[i].written| <= |ss[i + 1].written|
  {
    forall i | 0 <= i < |steps| ensures |ss[i].written| <= |ss[i + 1].written| {
      StepBytes(procs, ss, steps, i);
    }
  }

  /** One step of a writer that is still in its pipewrite. */
  lemma StillWriting(procs: set<Pid>, ss: seq<State>, steps: seq<Step>, p: Pid, k: nat)
    requires Run(procs, ss, steps) && k < |steps| && p in ss[k].procs && p in ss[k + 1].procs && ss[k + 1].procs[p].Writer?
    ensures |ss[k].written| <= |ss[k + 1].written| && ss[k + 1].procs[p].i <= |ss[k + 1].procs[p].src|
    ensures ss[k].procs[p].Writer? ==>
              var q, q', added := ss[k].procs[p], ss[k + 1].procs[p], ss[k + 1].written[|ss[k].written|..];
              && q'.src == q.src
              && if steps[k] == PutByte(p) then q'.i == q.i + 1 && q.i < |q.src| && added == [q.src[q.i]] else q'.i == q.i
  {
    StepBytes(procs, ss, steps, k);
    RunInv(procs, ss, steps, k + 1);
    assert ProcOk(ss[k + 1], p);
    hide Inv, ProcOk, Next, Min;
    if ss[k].procs[p].Writer? {
      SameCall(ss[k], steps[k], ss[k + 1], p);
    }
  }

  lemma SameCall(s: State, step: Step, s': State, p: Pid)
    requires Next(s, step, s') && p in s.procs && p in s'.procs && s.procs[p].Writer? && s'.procs[p].Writer?
    ensures s'.procs[p].src == s.procs[p].src
    ensures s'.procs[p].i == if step == PutByte(p) then s.procs[p].i + 1 else s.procs[p].i
  {
    hide Put, GetAll, Pending, Full, Empty, Count;
  }

  lemma JustStarted(s: State, s': State, p: Pid, src: seq<Byte>)
    requires Next(s, StartWrite(p, src), s')
    ensures s'.procs == s.procs[p := Writer(src, 0, Ready)]
  {
  }

  lemma FinishedAll(s: State, s': State, p: Pid)
    requires Next(s, Finish(p), s')
    ensures p in s.procs && s.procs[p].Writer? && s.procs[p].i == |s.procs[p].src|
  {
  }

  /** The bytes that a call of pipewrite adds are its own, in order: up to now src[..i], and all of src when it
      finishes. */
  lemma {:induction false} OwnBytes(procs: set<Pid>, ss: seq<State>, steps: seq<Step>, p: Pid, src: seq<Byte>, k: nat, j: nat)
    requires Run(procs, ss, steps) && k < j < |ss| && steps[k] == StartWrite(p, src)
    requires forall i :: k < i <= j ==> p in ss[i].procs && ss[i].procs[p].Writer?
    ensures forall i :: 0 <= i < |steps| ==> |ss[i].written| <= |ss[i + 1].written|
    ensures ss[j].procs[p].src == src && ss[j].procs[p].i <= |src|
    ensures AddedBy(ss, steps, p, k, j) == src[..ss[j].procs[p].i]
    ensures j < |steps| && steps[j] == Finish(p) ==> AddedBy(ss, steps, p, k, j) == src
  {
    hide Next;
    OnlyGrows(procs, ss, steps);
    if j == k + 1 {
      JustStarted(ss[k], ss[j], p, src);
      assert AddedBy(ss, steps, p, k, k) == [];
    } else {
      OwnBytes(procs, ss, steps, p, src, k, j - 1);
      StillWriting(procs, ss, steps, p, j - 1);
    }
    if j < |steps| && steps[j] == Finish(p) {
      FinishedAll(ss[j], ss[j + 1], p);
    }
  }

  /** When the holder of the pipe lock can do what, over every run: it always has exactly one way on, which a dozing
      process can hold up until it sleeps. */
  lemma HolderTurn(procs: set<Pid>, ss: seq<State>, steps: seq<Step>, i: nat, p: Pid)
    requires Run(procs, ss, steps) && i < |ss| && ss[i].holder == Some(p)
    ensures p in ss[i].procs && ss[i].procs[p].Writer?
    ensures var s, src, k := ss[i], ss[i].procs[p].src, ss[i].procs[p].i;
            var stop, full := !s.readopen || p in s.killed, |s.written| - |s.got| == PIPESIZE;
            var quiet := forall q :: q in s.procs && !s.procs[q].Out? ==> !s.procs[q].rest.Dozing?;
            && (Enabled(s, Fail(p)) <==> k < |src| && stop)
            && (Enabled(s, PutByte(p)) <==> k < |src| && !stop && !full)
            && (Enabled(s, FullUp(p)) <==> k < |src| && !stop && full && quiet)
            && (Enabled(s, Finish(p)) <==> k == |src| && quiet)
  {
    RunInv(procs, ss, steps, i);
    FullEmpty(ss[i].buf);
    assert ProcOk(ss[i], p);
    hide Pending;
  }

  /** When anybody else can move: with the pipe lock free and an end open, a writer enters and a reader runs, unless
      it has to wake writers past a dozing process; and who dozes can sleep. */
  lemma OthersTurn(procs: set<Pid>, ss: seq<State>, steps: seq<Step>, i: nat, p: Pid)
    requires Run(procs, ss, steps) && i < |ss| && p in ss[i].procs && ss[i].holder != Some(p)
    ensures var s := ss[i];
            var unlocked := s.holder == None && (s.readopen || s.writeopen);
            var quiet := forall q :: q in s.procs && !s.procs[q].Out? ==> !s.procs[q].rest.Dozing?;
            match s.procs[p]
            case Out =>
              && (forall n: nat :: Enabled(s, StartRead(p, n)))
              && (forall src: seq<Byte> :: Enabled(s, StartWrite(p, src)))
            case Reader(_, Ready) => Enabled(s, RunReader(p)) <==> unlocked && ((s.written == s.got && s.writeopen) || quiet)
            case Writer(_, _, Ready) => Enabled(s, Enter(p)) <==> unlocked
            case Reader(_, rest) => rest.Asleep? || Enabled(s, FallAsleep(p))
            case Writer(_, _, rest) => rest.Asleep? || Enabled(s, FallAsleep(p))
  {
    RunInv(procs, ss, steps, i);
    FullEmpty(ss[i].buf);
    assert ProcOk(ss[i], p);
    assert |ss[i].written| == |ss[i].got| + Count(ss[i].buf) && (Count(ss[i].buf) == 0 ==> Pending(ss[i].buf) == []);
    assert ss[i].written == ss[i].got <==> Empty(ss[i].buf);
    hide Pending;
  }

  /** No wakeup of a writer is lost: a resting writer faces a full pipe with an open read end. */
  lemma WriterAwoken(procs: set<Pid>, ss: seq<State>, steps: seq<Step>, i: nat, p: Pid)
    requires Run(procs, ss, steps) && i < |ss| && p in ss[i].procs && ss[i].procs[p].Writer? && Resting(ss[i].procs[p])
    ensures |ss[i].written| == |ss[i].got| + PIPESIZE && ss[i].readopen
  {
    RunInv(procs, ss, steps, i);
    FullEmpty(ss[i].buf);
    assert ProcOk(ss[i], p);
    assert |Pending(ss[i].buf)| == Count(ss[i].buf);
  }

  /** Wakeups of readers: whenever nobody holds the pipe lock, a resting reader faces an empty pipe with an open
      write end, unless some step k stranded it and no wakeup has followed. */
  lemma NoLostWakeup(procs: set<Pid>, ss: seq<State>, steps: seq<Step>, i: nat, p: Pid)
    requires Run(procs, ss, steps) && i < |ss| && RestingReader(ss[i], p)
    ensures ss[i].writeopen
    ensures ss[i].holder.None? ==> ss[i].written == ss[i].got || exists k :: Stranded(ss, steps, i, p, k)
  {
    RunInv(procs, ss, steps, i);
    assert ProcOk(ss[i], p);
    if !Fine(ss[i], p) {
      var _ := WhoStranded(procs, ss, steps, i, p);
    } else {
      FullEmpty(ss[i].buf);
      assert |Pending(ss[i].buf)| == Count(ss[i].buf);
    }
  }

  /** Step k left p asleep on a pipe that is not empty, and no wakeup came before state i. */
  ghost predicate Stranded(ss: seq<State>, steps: seq<Step>, i: nat, p: Pid, k: int) {
    && 0 <= k < i < |ss| && |ss| == |steps| + 1 && Strands(ss[k], steps[k], p)
    && forall m :: k < m < i ==> !WakesReaders(steps[m])
  }

  lemma {:induction false} WhoStranded(procs: set<Pid>, ss: seq<State>, steps: seq<Step>, i: nat, p: Pid) returns (k: nat)
    requires Run(procs, ss, steps) && i < |ss| && RestingReader(ss[i], p) && !Fine(ss[i], p)
    ensures Stranded(ss, steps, i, p, k)
  {
    hide Inv, Do, Enabled, Fine, Strands, RestingReader;
    assert i > 0 by { NotAtStart(procs, ss, steps, p); }
    RunInv(procs, ss, steps, i - 1);
    assert Next(ss[i - 1], steps[i - 1], ss[i]);
    SameProcs(ss[i - 1], steps[i - 1], p);
    if Fine(ss[i - 1], p) {
      FineExact(ss[i - 1], steps[i - 1], p);
      k := i - 1;
    } else {
      NotFineRests(ss[i - 1], p);
      k := WhoStranded(procs, ss, steps, i - 1, p);
      if WakesReaders(steps[i - 1]) {
        WokenUp(ss[i - 1], steps[i - 1], p);
      }
    }
  }

  lemma NotAtStart(procs: set<Pid>, ss: seq<State>, steps: seq<Step>, p: Pid)
    requires Run(procs, ss, steps)
    ensures !RestingReader(ss[0], p)
  {
  }

  lemma NotFineRests(s: State, p: Pid)
    requires !Fine(s, p)
    ensures RestingReader(s, p) && p in s.procs
  {
  }

  lemma SameProcs(s: State, step: Step, p: Pid)
    requires Ok(s.buf) && Enabled(s, step) && RestingReader(Do(s, step), p)
    ensures p in s.procs
  {
  }

  /** Readers and writers never rest at the same time, kills or not. */
  lemma NeverBothAsleep(procs: set<Pid>, ss: seq<State>, steps: seq<Step>, i: nat, p: Pid, q: Pid)
    requires Run(procs, ss, steps) && i < |ss| && p in ss[i].procs && q in ss[i].procs
    requires ss[i].procs[p].Reader? && ss[i].procs[q].Writer?
    ensures !Resting(ss[i].procs[p]) || !Resting(ss[i].procs[q])
  {
    RunInv(procs, ss, steps, i);
  }

  /** Both ends open, reader 0 and writer 1. */
  function Two(b: Buf, holder: Option<Pid>, r: Proc, w: Proc, killed: set<Pid>, written: seq<Byte>): State {
    State(b, true, true, holder, map[0 := r, 1 := w], killed, written, [])
  }

  /** Reader 0 sleeps on the empty pipe; writer 1 stores one of its two bytes, is killed, and returns: the reader
      sleeps on with a byte in the pipe and nobody in it. */
  lemma KilledWriterStrands() returns (ss: seq<State>, steps: seq<Step>)
    ensures Run({0, 1}, ss, steps)
    ensures var s := ss[|ss| - 1]; s == Two(s.buf, None, Reader(1, Asleep), Out, {1}, [7])
  {
    var b := Initial({0, 1}).buf;
    PutPending(b, 7);
    var b', w, r := Put(b, 7), [7, 8], Reader(1, Asleep);
    ReaderFirst(b);
    WriterThen(b, b', w, r);
    WriterKilled(b', w, r);
    assert Initial({0, 1}) == Two(b, None, Out, Out, {}, []);
    hide Next, Initial, Two;
    ss := [Two(b, None, Out, Out, {}, []), Two(b, None, Reader(1, Ready), Out, {}, []),
           Two(b, None, Reader(1, Dozing), Out, {}, []), Two(b, None, r, Out, {}, []),
           Two(b, None, r, Writer(w, 0, Ready), {}, []), Two(b, Some(1), r, Writer(w, 0, Inside(0)), {}, []),
           Two(b', Some(1), r, Writer(w, 1, Inside(1)), {}, [7]), Two(b', Some(1), r, Writer(w, 1, Inside(1)), {1}, [7]),
           Two(b', None, r, Out, {1}, [7])];
    steps := [StartRead(0, 1), RunReader(0), FallAsleep(0), StartWrite(1, w), Enter(1), PutByte(1), Kill(1), Fail(1)];
    BufOf(b', None, r, Out, {1}, [7]);
  }

  lemma BufOf(b: Buf, holder: Option<Pid>, r: Proc, w: Proc, killed: set<Pid>, written: seq<Byte>)
    ensures Two(b, holder, r, w, killed, written).buf == b
  {
  }

  lemma ReaderFirst(b: Buf)
    requires Ok(b) && Empty(b)
    ensures Next(Two(b, None, Out, Out, {}, []), StartRead(0, 1), Two(b, None, Reader(1, Ready), Out, {}, []))
    ensures Next(Two(b, None, Reader(1, Ready), Out, {}, []), RunReader(0), Two(b, None, Reader(1, Dozing), Out, {}, []))
    ensures Next(Two(b, None, Reader(1, Dozing), Out, {}, []), FallAsleep(0), Two(b, None, Reader(1, Asleep), Out, {}, []))
  {
    hide Ok, Empty, Full, Put, Count, Pending, GetAll;
  }

  lemma WriterThen(b: Buf, b': Buf, w: seq<Byte>, r: Proc)
    requires Ok(b) && Ok(b') && !Full(b) && |w| == 2 && w[0] == 7 && b' == Put(b, 7)
    ensures Next(Two(b, None, r, Out, {}, []), StartWrite(1, w), Two(b, None, r, Writer(w, 0, Ready), {}, []))
    ensures Next(Two(b, None, r, Writer(w, 0, Ready), {}, []), Enter(1), Two(b, Some(1), r, Writer(w, 0, Inside(0)), {}, []))
    ensures Next(Two(b, Some(1), r, Writer(w, 0, Inside(0)), {}, []), PutByte(1),
                 Two(b', Some(1), r, Writer(w, 1, Inside(1)), {}, [7]))
  {
    hide Ok, Empty, Full, Put, Count, Pending, GetAll;
  }

  lemma WriterKilled(b: Buf, w: seq<Byte>, r: Proc)
    requires Ok(b) && |w| == 2
    ensures Next(Two(b, Some(1), r, Writer(w, 1, Inside(1)), {}, [7]), Kill(1),
                 Two(b, Some(1), r, Writer(w, 1, Inside(1)), {1}, [7]))
    ensures Next(Two(b, Some(1), r, Writer(w, 1, Inside(1)), {1}, [7]), Fail(1), Two(b, None, r, Out, {1}, [7]))
  {
    hide Ok, Empty, Full, Put, Count, Pending, GetAll;
  }
}
