/** Runs in which log_write panics although every operation keeps to its reservation. */
module LogPanic {
  import opened Basics
  import opened LogDisk
  import opened WriteAheadLog

  function Last(ss: seq<State>): State
    requires |ss| > 0
  {
    ss[|ss| - 1]
  }

  /** A run goes on with any step that is enabled. */
  lemma Extend(L: Layout, d0: Disk, ss: seq<State>, step: Step)
    requires Run(L, d0, ss) && Enabled(L, Last(ss), step)
    ensures Shape(L, Last(ss).st) && Run(L, d0, ss + [Do(L, Last(ss), step)])
  {
    RunInv(L, d0, ss, |ss| - 1);
    hide Do, Enabled, Boot;
    var s' := Do(L, Last(ss), step);
    var ss' := ss + [s'];
    assert Next(L, Last(ss), s');
    forall i | 0 <= i < |ss'| - 1 ensures Next(L, ss'[i], ss'[i + 1]) {
      if i < |ss| - 1 {
        assert Next(L, ss[i], ss[i + 1]);
      }
    }
  }

  /** Recovery of an empty log, then three operations begin. */
  lemma Began(L: Layout, d0: Disk) returns (ss: seq<State>)
    requires HeadOk(L, d0) && Head(L, d0) == []
    ensures Run(L, d0, ss) && Last(ss).st.phase.Running? && Last(ss).st.lh == []
    ensures Last(ss).bk.active == map[1 := 0, 2 := 0, 3 := 0]
  {
    ss := [Boot(L, d0)];
    Extend(L, d0, ss, WriteBlock);
    hide Run, EncodeHead, Head;
    var s1 := Do(L, Last(ss), WriteBlock);
    ss := ss + [s1];
    assert Last(ss) == s1 && s1.bk == Boot(L, d0).bk;
    assert Enabled(L, s1, Begin(1));
    Extend(L, d0, ss, Begin(1));
    var s2 := Do(L, s1, Begin(1));
    ss := ss + [s2];
    assert Last(ss) == s2 && s2.bk.active == map[1 := 0];
    assert Enabled(L, s2, Begin(2));
    Extend(L, d0, ss, Begin(2));
    var s3 := Do(L, s2, Begin(2));
    ss := ss + [s3];
    assert Last(ss) == s3 && s3.bk.active == map[1 := 0, 2 := 0];
    assert Enabled(L, s3, Begin(3));
    Extend(L, d0, ss, Begin(3));
    ss := ss + [Do(L, s3, Begin(3))];
  }

  /** Operation op reads block b and logs it. */
  lemma Logs(L: Layout, d0: Disk, ss: seq<State>, op: OpId, b: nat) returns (ss': seq<State>)
    requires Run(L, d0, ss) && Last(ss).st.phase.Running? && L.Home(b) && b !in Last(ss).st.lh
    requires op in Last(ss).bk.active && Last(ss).bk.active[op] < MAXOPBLOCKS
    ensures Run(L, d0, ss') && |Last(ss).st.lh| < LOGSIZE
    ensures if |Last(ss).st.lh| == L.nlog - 1 then Last(ss').st.phase.Halted?
            else
              && Last(ss').st.phase.Running? && Last(ss').st.lh == Last(ss).st.lh + [b]
              && Last(ss').bk.active == Last(ss).bk.active[op := Last(ss).bk.active[op] + 1]
  {
    ss' := Cached(L, d0, ss, b);
    LogWritePanic(L, d0, ss', |ss'| - 1, op, b, Blank);
    hide Run;
    Extend(L, d0, ss', LogWrite(op, b, Blank));
    ss' := ss' + [Do(L, Last(ss'), LogWrite(op, b, Blank))];
  }

  lemma Cached(L: Layout, d0: Disk, ss: seq<State>, b: nat) returns (ss': seq<State>)
    requires Run(L, d0, ss) && Last(ss).st.phase.Running? && b < L.size
    ensures Run(L, d0, ss') && b in Last(ss').st.cache && Last(ss').bk == Last(ss).bk
    ensures Last(ss').st.phase.Running? && Last(ss').st.lh == Last(ss).st.lh
  {
    ss' := ss;
    if b !in Last(ss).st.cache {
      Extend(L, d0, ss, Fill(b));
      ss' := ss + [Do(L, Last(ss), Fill(b))];
    }
  }

  /** Blocks the j-th operation has logged when n are logged in all, ten by each in turn. */
  function Share(n: nat, j: nat): nat {
    if n <= j * MAXOPBLOCKS then 0 else if n < (j + 1) * MAXOPBLOCKS then n - j * MAXOPBLOCKS else MAXOPBLOCKS
  }

  /** The first n of bs are logged. */
  lemma {:induction false} Fills(L: Layout, d0: Disk, bs: seq<nat>, n: nat) returns (ss: seq<State>)
    requires HeadOk(L, d0) && Head(L, d0) == [] && NoDup(bs) && forall i :: 0 <= i < |bs| ==> L.Home(bs[i])
    requires n <= |bs| && n <= LOGSIZE && n < L.nlog
    ensures Run(L, d0, ss) && Last(ss).st.phase.Running? && Last(ss).st.lh == bs[..n]
    ensures Last(ss).bk.active == map[1 := Share(n, 0), 2 := Share(n, 1), 3 := Share(n, 2)]
  {
    hide Run;
    if n == 0 {
      ss := Began(L, d0);
    } else {
      ss := Fills(L, d0, bs, n - 1);
      ghost var j := (n - 1) / MAXOPBLOCKS;
      NotYet(bs, n - 1);
      ss := Logs(L, d0, ss, j + 1, bs[n - 1]);
      assert bs[..n] == bs[..n - 1] + [bs[n - 1]];
    }
  }

  lemma NotYet(bs: seq<nat>, n: nat)
    requires NoDup(bs) && n < |bs|
    ensures bs[n] !in bs[..n]
  {
  }

  /** In a log of at most LOGSIZE blocks a new block can find no room: three operations, none of which logs more
      than MAXOPBLOCKS blocks, bring log_write to panic. */
  lemma NewBlockPanics(L: Layout, d0: Disk, bs: seq<nat>) returns (ss: seq<State>)
    requires HeadOk(L, d0) && Head(L, d0) == [] && NoDup(bs) && forall i :: 0 <= i < |bs| ==> L.Home(bs[i])
    requires L.nlog <= LOGSIZE && |bs| == L.nlog
    ensures Run(L, d0, ss) && Last(ss).st.phase.Halted?
  {
    hide Run;
    var n := L.nlog - 1;
    ss := Fills(L, d0, bs, n);
    NotYet(bs, n);
    ss := Logs(L, d0, ss, n / MAXOPBLOCKS + 1, bs[n]);
  }

  /** In a larger log it is a write that would be absorbed which panics, once the header is full. */
  lemma AbsorbedPanics(L: Layout, d0: Disk, bs: seq<nat>) returns (ss: seq<State>)
    requires HeadOk(L, d0) && Head(L, d0) == [] && NoDup(bs) && forall i :: 0 <= i < |bs| ==> L.Home(bs[i])
    requires L.nlog > LOGSIZE && |bs| == LOGSIZE
    ensures Run(L, d0, ss) && Last(ss).st.phase.Halted?
  {
    ss := Fills(L, d0, bs, LOGSIZE);
    ss := Cached(L, d0, ss, bs[0]);
    assert bs[..LOGSIZE] == bs;
    hide Run;
    LogWritePanic(L, d0, ss, |ss| - 1, 1, bs[0], Blank);
    Extend(L, d0, ss, LogWrite(1, bs[0], Blank));
    ss := ss + [Do(L, Last(ss), LogWrite(1, bs[0], Blank))];
  }
}
