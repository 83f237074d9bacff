/** What becomes of the data handed to log_write, over every run of the logging protocol. */
module LogWrites {
  import opened Basics
  import opened LogDisk
  import opened WriteAheadLog

  /** A run with the steps it takes. */
  ghost predicate RunBy(L: Layout, d0: Disk, ss: seq<State>, steps: seq<Step>) {
    && HeadOk(L, d0) && |ss| == |steps| + 1 && ss[0] == Boot(L, d0)
    && forall i :: 0 <= i < |steps| ==>
         Shape(L, ss[i].st) && Enabled(L, ss[i], steps[i]) && ss[i + 1] == Do(L, ss[i], steps[i])
  }

  lemma IsRun(L: Layout, d0: Disk, ss: seq<State>, steps: seq<Step>)
    requires RunBy(L, d0, ss, steps)
    ensures Run(L, d0, ss)
  {
    hide Do, Enabled, Boot, Shape;
    forall i | 0 <= i < |ss| - 1 ensures Next(L, ss[i], ss[i + 1]) {
      assert Enabled(L, ss[i], steps[i]);
    }
  }

  lemma StepAt(L: Layout, d0: Disk, ss: seq<State>, steps: seq<Step>, i: nat)
    requires RunBy(L, d0, ss, steps) && i < |steps|
    ensures Inv(L, d0, ss[i]) && Inv(L, d0, ss[i + 1])
    ensures Shape(L, ss[i].st) && Enabled(L, ss[i], steps[i]) && ss[i + 1] == Do(L, ss[i], steps[i])
  {
    hide Inv, Do, Enabled, Boot;
    IsRun(L, d0, ss, steps);
    RunInv(L, d0, ss, i);
    RunInv(L, d0, ss, i + 1);
  }

  /** After log_write of data to block b, b reads as data and every other block as before; the update joins the
      current group, the block is in the header and stays pinned, and the disk is untouched. */
  lemma LogWriteSeen(L: Layout, d0: Disk, ss: seq<State>, steps: seq<Step>, i: nat, op: OpId, b: nat, data: Block, c: nat)
    requires RunBy(L, d0, ss, steps) && i < |steps| && steps[i] == LogWrite(op, b, data) && c < L.size
    requires !ss[i + 1].st.phase.Halted?
    ensures |ss[i].st.disk| == |ss[i + 1].st.disk| == L.size && ss[i + 1].st.disk == ss[i].st.disk
    ensures Bread(ss[i + 1].st, c) == if c == b then data else Bread(ss[i].st, c)
    ensures b in ss[i + 1].st.lh && b in ss[i + 1].st.pinned
    ensures ss[i + 1].bk.cur.updates == ss[i].bk.cur.updates + [Update(op, b, data)]
    ensures ss[i + 1].bk.done == ss[i].bk.done && ss[i + 1].bk.lost == ss[i].bk.lost
  {
    StepAt(L, d0, ss, steps, i);
    hide Inv, Enabled, Do, RunBy;
    LogWriteIs(L, d0, ss[i], op, b, data, c);
  }

  lemma LogWriteIs(L: Layout, d0: Disk, s: State, op: OpId, b: nat, data: Block, c: nat)
    requires Inv(L, d0, s) && Enabled(L, s, LogWrite(op, b, data)) && c < L.size
    requires !Do(L, s, LogWrite(op, b, data)).st.phase.Halted?
    ensures var s' := Do(L, s, LogWrite(op, b, data));
            && |s.st.disk| == L.size && s'.st.disk == s.st.disk
            && Bread(s'.st, c) == (if c == b then data else Bread(s.st, c))
            && b in s'.st.lh && b in s'.st.pinned
            && s'.bk.cur.updates == s.bk.cur.updates + [Update(op, b, data)]
            && s'.bk.done == s.bk.done && s'.bk.lost == s.bk.lost
  {
    hide Durably, Grouped, Reserved, Head, Coherent, Committed, Logical;
  }

  /** No other step adds an update: it leaves the groups as they are, commits the current one or, in a crash, drops
      it. */
  lemma OnlyLogWriteLogs(L: Layout, d0: Disk, ss: seq<State>, steps: seq<Step>, i: nat)
    requires RunBy(L, d0, ss, steps) && i < |steps| && !steps[i].LogWrite?
    ensures var bk, bk' := ss[i].bk, ss[i + 1].bk;
            if steps[i].Crash? then
              bk'.done == bk.done && bk'.lost == bk.lost + [bk.cur] && bk'.cur.updates == []
            else
              && bk'.lost == bk.lost
              && (|| (bk'.done == bk.done && bk'.cur.updates == bk.cur.updates)
                  || (exists ops :: bk'.done == bk.done + [Group(ops, bk.cur.updates)] && bk'.cur.updates == []))
  {
    assert ss[i].bk.cur == Group(ss[i].bk.cur.ops, ss[i].bk.cur.updates);
  }

  /** What file-system code sees in block b, and what would survive a crash. */
  ghost predicate Holds(L: Layout, d0: Disk, bk: Book, b: nat, data: Block, committed: bool)
    requires HeadOk(L, d0) && b < L.size
  {
    Logical(L, d0, bk)[b] == data && (committed ==> Committed(L, d0, bk)[b] == data)
  }

  lemma LogWriteHolds(L: Layout, d0: Disk, s: State, op: OpId, c: nat, x: Block, b: nat, data: Block, committed: bool)
    requires HeadOk(L, d0) && Shape(L, s.st) && Enabled(L, s, LogWrite(op, c, x)) && b < L.size && c != b
    requires Holds(L, d0, s.bk, b, data, committed)
    ensures Holds(L, d0, Do(L, s, LogWrite(op, c, x)).bk, b, data, committed)
  {
    hide Recovered, Replay, Updates;
    LogWriteContents(L, d0, s.bk, op, c, x);
  }

  lemma OtherHolds(L: Layout, d0: Disk, s: State, step: Step, b: nat, data: Block, committed: bool)
    requires Inv(L, d0, s) && Enabled(L, s, step) && !step.LogWrite? && b < L.size
    requires Holds(L, d0, s.bk, b, data, committed) && (step.Crash? ==> committed)
    ensures Shape(L, s.st)
    ensures var bk := Do(L, s, step).bk;
            |bk.done| >= |s.bk.done| && Holds(L, d0, bk, b, data, committed || |bk.done| > |s.bk.done|)
  {
    hide Recovered, Replay, Updates, Grouped, Reserved, OnTrack, Coherent, Durably;
    var bk := Do(L, s, step).bk;
    match step
    case Crash => NothingPending(L, d0, bk);
    case End(op) => CloseContents(L, d0, s.bk.(active := s.bk.active - {op}, ended := s.bk.ended + {op}));
    case WriteBlock => CloseContents(L, d0, s.bk);
    case _ =>
  }

  /** A write lasts.  From log_write on, until the next log_write to the same block, block b reads as the data; as
      soon as a group has committed after it, recovery would bring the data back from any disk on the way, crashes
      from then on included.  Only a crash before that drops it. */
  lemma {:induction false} WriteLasts(L: Layout, d0: Disk, ss: seq<State>, steps: seq<Step>, i: nat, j: nat,
                                      op: OpId, b: nat, data: Block)
    requires RunBy(L, d0, ss, steps) && i < j < |ss| && steps[i] == LogWrite(op, b, data) && !ss[i + 1].st.phase.Halted?
    requires forall k :: i < k < j ==> !(steps[k].LogWrite? && steps[k].addr == b)
    requires forall k :: i < k < j && steps[k].Crash? ==> |ss[k].bk.done| > |ss[i].bk.done|
    ensures L.Home(b) && HeadOk(L, ss[j].st.disk) && |ss[i].bk.done| <= |ss[j].bk.done|
    ensures Holds(L, d0, ss[j].bk, b, data, |ss[j].bk.done| > |ss[i].bk.done|)
    ensures ss[j].st.phase.Running? || ss[j].st.phase.Committing? ==> Bread(ss[j].st, b) == data
    ensures |ss[j].bk.done| > |ss[i].bk.done| ==> Durable(L, ss[j].st.disk, b) == data
    decreases j
  {
    StepAt(L, d0, ss, steps, j - 1);
    if j == i + 1 {
      hide Inv, RunBy, Holds;
      LogWriteHoldsNow(L, d0, ss[i], op, b, data);
    } else {
      WriteLasts(L, d0, ss, steps, i, j - 1, op, b, data);
      hide Inv, RunBy, Holds, Do, Enabled;
      StepHolds(L, d0, ss[j - 1], steps[j - 1], b, data, |ss[j - 1].bk.done| > |ss[i].bk.done|);
    }
    Seen(L, d0, ss[j], b);
  }

  lemma StepHolds(L: Layout, d0: Disk, s: State, step: Step, b: nat, data: Block, committed: bool)
    requires Inv(L, d0, s) && Enabled(L, s, step) && b < L.size && !(step.LogWrite? && step.addr == b)
    requires Holds(L, d0, s.bk, b, data, committed) && (step.Crash? ==> committed)
    ensures Shape(L, s.st)
    ensures var bk := Do(L, s, step).bk;
            |bk.done| >= |s.bk.done| && Holds(L, d0, bk, b, data, committed || |bk.done| > |s.bk.done|)
  {
    if step.LogWrite? {
      hide Holds, Inv;
      LogWriteHolds(L, d0, s, step.op, step.addr, step.data, b, data, committed);
    } else {
      OtherHolds(L, d0, s, step, b, data, committed);
    }
  }

  lemma LogWriteHoldsNow(L: Layout, d0: Disk, s: State, op: OpId, b: nat, data: Block)
    requires Inv(L, d0, s) && Enabled(L, s, LogWrite(op, b, data)) && !Do(L, s, LogWrite(op, b, data)).st.phase.Halted?
    ensures L.Home(b) && b < L.size && HeadOk(L, d0) && Holds(L, d0, Do(L, s, LogWrite(op, b, data)).bk, b, data, false)
    ensures Do(L, s, LogWrite(op, b, data)).bk.done == s.bk.done
  {
    hide Recovered, Replay, Updates;
    LogWriteContents(L, d0, s.bk, op, b, data);
  }

  lemma Seen(L: Layout, d0: Disk, s: State, b: nat)
    requires Inv(L, d0, s) && L.Home(b)
    ensures HeadOk(L, s.st.disk) && Durable(L, s.st.disk, b) == Committed(L, d0, s.bk)[b]
    ensures s.st.phase.Running? || s.st.phase.Committing? ==> Bread(s.st, b) == Logical(L, d0, s.bk)[b]
  {
    assert Durably(L, s.st.disk, Committed(L, d0, s.bk));
    hide Durably, Grouped, Reserved, OnTrack;
  }

  // ---------------------------------------------------------------- commits and recoveries come to an end

  /** The block writes from step i on are not interrupted. */
  ghost predicate Uninterrupted(ss: seq<State>, steps: seq<Step>, i: nat, k: nat) {
    i + k < |ss| == |steps| + 1 && forall j :: i <= j < i + k ==> steps[j].WriteBlock?
  }

  lemma {:induction false} CommitAt(L: Layout, d0: Disk, ss: seq<State>, steps: seq<Step>, i: nat, k: nat)
    requires RunBy(L, d0, ss, steps) && Uninterrupted(ss, steps, i, k) && ss[i].st.phase == Committing(0)
    requires k <= 2 * |ss[i].st.lh| + 2
    ensures var s, s', n := ss[i], ss[i + k], |ss[i].st.lh|;
            && s'.bk == (if k > n then Close(s.bk) else s.bk)
            && (if k == 2 * n + 2 then s'.st.phase.Running? && s'.st.lh == []
                else s'.st.phase == Committing(k) && s'.st.lh == s.st.lh)
  {
    if k > 0 {
      CommitAt(L, d0, ss, steps, i, k - 1);
      hide CommitStepWrite, Shape, Boot;
      assert Enabled(L, ss[i + k - 1], steps[i + k - 1]) && ss[i + k] == Do(L, ss[i + k - 1], WriteBlock);
    }
  }

  /** The last end_op commits: with nothing logged the group is closed at once, and otherwise two block writes for
      each logged block and two for the header commit it, with the write of the header after the copies. */
  lemma EndCommits(L: Layout, d0: Disk, ss: seq<State>, steps: seq<Step>, i: nat, op: OpId)
    requires RunBy(L, d0, ss, steps) && i < |steps| && steps[i] == End(op)
    ensures var s, s', n := ss[i], ss[i + 1], |ss[i].st.lh|;
            && op !in s'.bk.active && op in s'.bk.ended
            && s'.bk.cur.updates == (if s'.bk.done == s.bk.done then s.bk.cur.updates else [])
            && (if s.bk.active.Keys != {op} then s'.st == s.st && s'.bk.done == s.bk.done
                else if n == 0 then s'.st == s.st && s'.bk.done == s.bk.done + [s.bk.cur]
                else
                  && s'.st.phase == Committing(0) && s'.bk.done == s.bk.done
                  && (Uninterrupted(ss, steps, i + 1, n + 1) ==> ss[i + n + 2].bk.done == s.bk.done + [s.bk.cur])
                  && (Uninterrupted(ss, steps, i + 1, 2 * n + 2) ==>
                        ss[i + 2 * n + 3].st.phase.Running? && ss[i + 2 * n + 3].bk.done == s.bk.done + [s.bk.cur]))
  {
    assert Enabled(L, ss[i], steps[i]) && ss[i + 1] == Do(L, ss[i], steps[i]);
    var s, n := ss[i], |ss[i].st.lh|;
    assert (s.bk.active - {op}).Keys == s.bk.active.Keys - {op};
    if s.bk.active.Keys == {op} && n > 0 {
      hide RunBy, Do, Enabled;
      if Uninterrupted(ss, steps, i + 1, n + 1) {
        CommitAt(L, d0, ss, steps, i + 1, n + 1);
      }
      if Uninterrupted(ss, steps, i + 1, 2 * n + 2) {
        CommitAt(L, d0, ss, steps, i + 1, 2 * n + 2);
      }
    }
  }

  /** Recovery takes one block write for each block in the header, and one for the header. */
  lemma {:induction false} RecoverAt(L: Layout, d0: Disk, ss: seq<State>, steps: seq<Step>, i: nat, k: nat)
    requires RunBy(L, d0, ss, steps) && Uninterrupted(ss, steps, i, k) && ss[i].st.phase == Recovering(0)
    requires k <= |ss[i].st.lh| + 1
    ensures var s, s' := ss[i], ss[i + k];
            && s'.bk == s.bk
            && (if k == |s.st.lh| + 1 then s'.st.phase.Running? && s'.st.lh == []
                else s'.st.phase == Recovering(k) && s'.st.lh == s.st.lh)
  {
    if k > 0 {
      RecoverAt(L, d0, ss, steps, i, k - 1);
      hide RecoverStepWrite, Shape, Boot;
      assert Enabled(L, ss[i + k - 1], steps[i + k - 1]) && ss[i + k] == Do(L, ss[i + k - 1], WriteBlock);
    }
  }
}
