/** The on-disk redo log of kernel/log.c: its layout, its header block, and the exact sequence of
    single block writes that a commit and a recovery issue.  A crash is any prefix of such a
    sequence; `Durable` is what recovery makes of a disk. */
module LogDisk {
  import opened Basics

  const LOGSIZE: nat := MAXOPBLOCKS * 3

  /** Words in a block: BSIZE / sizeof(uint). */
  const WORDS: nat := 256

  type Block = b: seq<nat> | |b| == WORDS witness seq(WORDS, _ => 0)
  const Blank: Block := seq(WORDS, _ => 0)

  type Disk = seq<Block>

  /** One block write reaching the disk. */
  datatype DiskWrite = DiskWrite(addr: nat, data: Block)

  /** The header block is `logstart`; logged copies follow it.  All other blocks are home blocks. */
  datatype Layout = Layout(size: nat, logstart: nat, nlog: nat) {
    predicate Valid() {
      1 <= nlog && logstart + nlog <= size
    }

    predicate Home(b: nat) {
      b < size && !(logstart <= b < logstart + nlog)
    }
  }

  /** A list of logged block numbers that fits the header and the log area. */
  predicate LogOk(L: Layout, lh: seq<nat>) {
    && |lh| <= LOGSIZE
    && |lh| < L.nlog
    && NoDup(lh)
    && forall i :: 0 <= i < |lh| ==> L.Home(lh[i])
  }

  /** write_head overwrites n and the first n entries; the rest of the block stays stale. */
  function EncodeHead(prev: Block, lh: seq<nat>): (b: Block)
    requires |lh| <= LOGSIZE
    ensures b[0] == |lh| && b[1..1 + |lh|] == lh
  {
    [|lh|] + lh + prev[1 + |lh|..]
  }

  predicate HeadOk(L: Layout, d: Disk) {
    && L.Valid()
    && |d| == L.size
    && d[L.logstart][0] <= LOGSIZE
    && LogOk(L, Head(L, d))
  }

  /** read_head. */
  function Head(L: Layout, d: Disk): seq<nat>
    requires L.Valid() && |d| == L.size && d[L.logstart][0] <= LOGSIZE
  {
    var b := d[L.logstart];
    b[1..1 + b[0]]
  }

  function Index(s: seq<nat>, x: nat): (i: nat)
    requires x in s
    ensures i < |s| && s[i] == x
  {
    if s[0] == x then 0 else 1 + Index(s[1..], x)
  }

  /** The contents home block b will have once recovery has run to its end. */
  function Durable(L: Layout, d: Disk, b: nat): Block
    requires HeadOk(L, d) && L.Home(b)
  {
    var lh := Head(L, d);
    if b in lh then Slot(L, d, Index(lh, b)) else d[b]
  }

  /** The i-th block of the log area. */
  function Slot(L: Layout, d: Disk, i: nat): Block
    requires L.Valid() && |d| == L.size && 1 + i < L.nlog
  {
    d[L.logstart + 1 + i]
  }

  predicate InBounds(d: Disk, ws: seq<DiskWrite>) {
    forall i :: 0 <= i < |ws| ==> ws[i].addr < |d|
  }

  function Apply(d: Disk, ws: seq<DiskWrite>): (e: Disk)
    requires InBounds(d, ws)
    ensures |e| == |d|
  {
    if ws == [] then d
    else
      var w := ws[|ws| - 1];
      Apply(d, ws[..|ws| - 1])[w.addr := w.data]
  }

  lemma ApplyNext(d: Disk, ws: seq<DiskWrite>, k: nat)
    requires k < |ws| && InBounds(d, ws)
    ensures Apply(d, ws[..k + 1]) == Apply(d, ws[..k])[ws[k].addr := ws[k].data]
  {
    assert ws[..k + 1][..k] == ws[..k];
  }

  // ---------------------------------------------------------------- one redo in progress

  predicate Copied(L: Layout, e: Disk, vals: seq<Block>, m: nat)
    requires L.Valid() && |e| == L.size && |vals| < L.nlog && m <= |vals|
  {
    forall i :: 0 <= i < m ==> Slot(L, e, i) == vals[i]
  }

  predicate Installed(L: Layout, d: Disk, e: Disk, lh: seq<nat>, vals: seq<Block>, j: nat)
    requires |d| == |e| == L.size && LogOk(L, lh) && |vals| == |lh|
  {
    && (forall i :: 0 <= i < |lh| ==> L.Home(lh[i]) && e[lh[i]] == if i < j then vals[i] else d[lh[i]])
    && (forall b :: 0 <= b < L.size && L.Home(b) && b !in lh ==> e[b] == d[b])
  }

  /** e is disk d with the first m of vals in the log area, `head` as header block, and the first j of
      vals at their homes lh. */
  predicate Stage(L: Layout, d: Disk, lh: seq<nat>, vals: seq<Block>, m: nat, head: Block, j: nat, e: Disk)
    requires L.Valid() && |d| == L.size && LogOk(L, lh) && |vals| == |lh| && m <= |lh|
  {
    && |e| == L.size
    && Copied(L, e, vals, m)
    && e[L.logstart] == head
    && Installed(L, d, e, lh, vals, j)
  }

  lemma CopyOne(L: Layout, d: Disk, lh: seq<nat>, vals: seq<Block>, m: nat, head: Block, j: nat, e: Disk)
    requires L.Valid() && |d| == L.size && LogOk(L, lh) && |vals| == |lh| && m < |lh|
    requires Stage(L, d, lh, vals, m, head, j, e)
    ensures Stage(L, d, lh, vals, m + 1, head, j, e[L.logstart + 1 + m := vals[m]])
  {
  }

  lemma PutHead(L: Layout, d: Disk, lh: seq<nat>, vals: seq<Block>, m: nat, head: Block, j: nat, e: Disk, head': Block)
    requires L.Valid() && |d| == L.size && LogOk(L, lh) && |vals| == |lh| && m <= |lh|
    requires Stage(L, d, lh, vals, m, head, j, e)
    ensures Stage(L, d, lh, vals, m, head', j, e[L.logstart := head'])
  {
  }

  lemma InstallOne(L: Layout, d: Disk, lh: seq<nat>, vals: seq<Block>, m: nat, head: Block, j: nat, e: Disk)
    requires L.Valid() && |d| == L.size && LogOk(L, lh) && |vals| == |lh| && m <= |lh| && j < |lh|
    requires Stage(L, d, lh, vals, m, head, j, e)
    ensures Stage(L, d, lh, vals, m, head, j + 1, e[lh[j] := vals[j]])
  {
    assert L.Home(lh[j]);
  }

  /** What recovery makes of a stage is decided by its header alone. */
  lemma StageDurable(L: Layout, d: Disk, lh: seq<nat>, vals: seq<Block>, m: nat, head: Block, j: nat, e: Disk, b: nat)
    requires L.Valid() && |d| == L.size && LogOk(L, lh) && |vals| == |lh| && m <= |lh| && L.Home(b)
    requires Stage(L, d, lh, vals, m, head, j, e) && head[0] <= LOGSIZE
    ensures Head(L, e) == [] ==> HeadOk(L, e) && Durable(L, e, b) == e[b]
    ensures Head(L, e) == lh && m == |lh| ==>
              HeadOk(L, e) && Durable(L, e, b) == if b in lh then vals[Index(lh, b)] else d[b]
  {
  }

  // ---------------------------------------------------------------- commit

  function HeadWrite(L: Layout, prev: Block, lh: seq<nat>): DiskWrite
    requires |lh| <= LOGSIZE
  {
    DiskWrite(L.logstart, EncodeHead(prev, lh))
  }

  /** The k-th block write of commit: the copies made by write_log, the header, the copies made by
      install_trans, the erased header. */
  function CommitWrite(L: Layout, prev: Block, lh: seq<nat>, vals: seq<Block>, k: nat): DiskWrite
    requires |lh| <= LOGSIZE && |vals| == |lh| && k < 2 * |lh| + 2
  {
    var n := |lh|;
    if k < n then DiskWrite(L.logstart + 1 + k, vals[k])
    else if k == n then HeadWrite(L, prev, lh)
    else if k <= 2 * n then DiskWrite(lh[k - n - 1], vals[k - n - 1])
    else HeadWrite(L, EncodeHead(prev, lh), [])
  }

  /** Every block write of commit, in order; none when nothing was logged. */
  function CommitWrites(L: Layout, prev: Block, lh: seq<nat>, vals: seq<Block>): (ws: seq<DiskWrite>)
    requires |lh| <= LOGSIZE && |vals| == |lh|
  {
    if lh == [] then []
    else seq(2 * |lh| + 2, k requires 0 <= k < 2 * |lh| + 2 => CommitWrite(L, prev, lh, vals, k))
  }

  /** The header block after k writes. */
  function CommitHead(prev: Block, lh: seq<nat>, k: nat): Block
    requires |lh| <= LOGSIZE
  {
    if k <= |lh| then prev
    else if k <= 2 * |lh| + 1 then EncodeHead(prev, lh)
    else EncodeHead(EncodeHead(prev, lh), [])
  }

  /** e is disk d after the first k writes of the commit of lh. */
  predicate CommitPoint(L: Layout, d: Disk, lh: seq<nat>, vals: seq<Block>, k: nat, e: Disk)
    requires L.Valid() && |d| == L.size && LogOk(L, lh) && |vals| == |lh|
  {
    var n := |lh|;
    Stage(L, d, lh, vals, if k < n then k else n, CommitHead(d[L.logstart], lh, k),
          if k <= n then 0 else if k <= 2 * n + 1 then k - n - 1 else n, e)
  }

  lemma CommitStep(L: Layout, d: Disk, lh: seq<nat>, vals: seq<Block>, k: nat, e: Disk)
    requires L.Valid() && |d| == L.size && LogOk(L, lh) && |vals| == |lh| && lh != []
    requires k < 2 * |lh| + 2 && CommitPoint(L, d, lh, vals, k, e)
    ensures var w := CommitWrite(L, d[L.logstart], lh, vals, k);
            w.addr < |d| && CommitPoint(L, d, lh, vals, k + 1, e[w.addr := w.data])
  {
    hide Stage;
    var n, head := |lh|, CommitHead(d[L.logstart], lh, k);
    if k < n {
      CopyOne(L, d, lh, vals, k, head, 0, e);
    } else if n < k <= 2 * n {
      assert L.Home(lh[k - n - 1]);
      InstallOne(L, d, lh, vals, n, head, k - n - 1, e);
    } else {
      PutHead(L, d, lh, vals, n, head, if k == n then 0 else n, e, CommitHead(d[L.logstart], lh, k + 1));
    }
  }

  lemma {:induction false} CommitPrefix(L: Layout, d: Disk, lh: seq<nat>, vals: seq<Block>, k: nat)
    requires L.Valid() && |d| == L.size && LogOk(L, lh) && |vals| == |lh| && lh != [] && k <= 2 * |lh| + 2
    ensures var ws := CommitWrites(L, d[L.logstart], lh, vals);
            && InBounds(d, ws)
            && CommitPoint(L, d, lh, vals, k, Apply(d, ws[..k]))
  {
    hide Stage, Slot, EncodeHead;
    var ws := CommitWrites(L, d[L.logstart], lh, vals);
    if k == 0 {
      StageZero(L, d, lh, vals);
    } else {
      CommitPrefix(L, d, lh, vals, k - 1);
      CommitStep(L, d, lh, vals, k - 1, Apply(d, ws[..k - 1]));
      ApplyNext(d, ws, k - 1);
    }
  }

  lemma StageZero(L: Layout, d: Disk, lh: seq<nat>, vals: seq<Block>)
    requires L.Valid() && |d| == L.size && LogOk(L, lh) && |vals| == |lh|
    ensures Stage(L, d, lh, vals, 0, d[L.logstart], 0, d)
  {
  }

  lemma CommitPointHead(L: Layout, d: Disk, lh: seq<nat>, vals: seq<Block>, k: nat, e: Disk)
    requires HeadOk(L, d) && Head(L, d) == [] && LogOk(L, lh) && |vals| == |lh| && lh != []
    requires k <= 2 * |lh| + 2 && CommitPoint(L, d, lh, vals, k, e)
    ensures HeadOk(L, e) && Head(L, e) == if |lh| < k <= 2 * |lh| + 1 then lh else []
  {
    assert Head(L, e) == if |lh| < k <= 2 * |lh| + 1 then lh else [];
  }

  lemma CommitPointDurable(L: Layout, d: Disk, lh: seq<nat>, vals: seq<Block>, k: nat, e: Disk, b: nat)
    requires HeadOk(L, d) && Head(L, d) == [] && LogOk(L, lh) && |vals| == |lh| && lh != []
    requires k <= 2 * |lh| + 2 && L.Home(b) && CommitPoint(L, d, lh, vals, k, e)
    ensures HeadOk(L, e) && Durable(L, e, b) == if |lh| < k && b in lh then vals[Index(lh, b)] else d[b]
  {
    hide EncodeHead;
    var n := |lh|;
    CommitPointHead(L, d, lh, vals, k, e);
    StageDurable(L, d, lh, vals, if k < n then k else n, e[L.logstart],
                 if k <= n then 0 else if k <= 2 * n + 1 then k - n - 1 else n, e, b);
  }

  /** Crash atomicity of commit: after any prefix of its writes, recovery gives all the old blocks
      or all the new ones, and the new ones exactly when the first header write is in the prefix. */
  lemma CommitAtomic(L: Layout, d: Disk, lh: seq<nat>, vals: seq<Block>, k: nat, b: nat)
    requires HeadOk(L, d) && Head(L, d) == [] && LogOk(L, lh) && |vals| == |lh| && lh != []
    requires k <= 2 * |lh| + 2 && L.Home(b)
    ensures var ws := CommitWrites(L, d[L.logstart], lh, vals);
            && InBounds(d, ws)
            && HeadOk(L, Apply(d, ws[..k]))
            && Durable(L, Apply(d, ws[..k]), b) == if |lh| < k && b in lh then vals[Index(lh, b)] else d[b]
  {
    CommitPrefix(L, d, lh, vals, k);
    CommitPointDurable(L, d, lh, vals, k, Apply(d, CommitWrites(L, d[L.logstart], lh, vals)[..k]), b);
  }

  // ---------------------------------------------------------------- recovery

  function Slots(L: Layout, d: Disk, n: nat): (vals: seq<Block>)
    requires L.Valid() && |d| == L.size && n < L.nlog
    ensures |vals| == n && Copied(L, d, vals, n)
  {
    seq(n, i requires 0 <= i < n => Slot(L, d, i))
  }

  /** The k-th block write of recover_from_log on disk d. */
  function RecoverWrite(L: Layout, d: Disk, k: nat): DiskWrite
    requires HeadOk(L, d) && k <= |Head(L, d)|
  {
    var lh := Head(L, d);
    if k < |lh| then DiskWrite(lh[k], Slot(L, d, k)) else HeadWrite(L, d[L.logstart], [])
  }

  /** Every block write of recover_from_log, in order. */
  function RecoverWrites(L: Layout, d: Disk): (ws: seq<DiskWrite>)
    requires HeadOk(L, d)
    ensures |ws| == |Head(L, d)| + 1
  {
    seq(|Head(L, d)| + 1, k requires 0 <= k <= |Head(L, d)| => RecoverWrite(L, d, k))
  }

  /** e is disk d after the first k writes of its recovery. */
  predicate RecoverPoint(L: Layout, d: Disk, k: nat, e: Disk)
    requires HeadOk(L, d)
  {
    var lh := Head(L, d);
    Stage(L, d, lh, Slots(L, d, |lh|), |lh|,
          if k <= |lh| then d[L.logstart] else EncodeHead(d[L.logstart], []), if k <= |lh| then k else |lh|, e)
  }

  lemma RecoverStep(L: Layout, d: Disk, k: nat, e: Disk)
    requires HeadOk(L, d) && k <= |Head(L, d)| && RecoverPoint(L, d, k, e)
    ensures var w := RecoverWrite(L, d, k);
            w.addr < |d| && RecoverPoint(L, d, k + 1, e[w.addr := w.data])
  {
    var lh := Head(L, d);
    var vals := Slots(L, d, |lh|);
    if k < |lh| {
      InstallOne(L, d, lh, vals, |lh|, d[L.logstart], k, e);
    } else {
      PutHead(L, d, lh, vals, |lh|, d[L.logstart], k, e, EncodeHead(d[L.logstart], []));
    }
  }

  lemma RecoverBounds(L: Layout, d: Disk)
    requires HeadOk(L, d)
    ensures InBounds(d, RecoverWrites(L, d))
  {
  }

  lemma {:induction false} RecoverPrefix(L: Layout, d: Disk, k: nat)
    requires HeadOk(L, d) && k <= |Head(L, d)| + 1
    ensures InBounds(d, RecoverWrites(L, d))
    ensures RecoverPoint(L, d, k, Apply(d, RecoverWrites(L, d)[..k]))
  {
    var ws := RecoverWrites(L, d);
    RecoverBounds(L, d);
    if k > 0 {
      hide RecoverPoint, Head, Slots, HeadOk;
      RecoverPrefix(L, d, k - 1);
      RecoverStep(L, d, k - 1, Apply(d, ws[..k - 1]));
      ApplyNext(d, ws, k - 1);
    }
  }

  lemma RecoverPointHead(L: Layout, d: Disk, k: nat, e: Disk)
    requires HeadOk(L, d) && k <= |Head(L, d)| + 1 && RecoverPoint(L, d, k, e)
    ensures HeadOk(L, e) && Head(L, e) == if k <= |Head(L, d)| then Head(L, d) else []
  {
    assert Head(L, e) == if k <= |Head(L, d)| then Head(L, d) else [];
  }

  lemma RecoverPointDurable(L: Layout, d: Disk, k: nat, e: Disk, b: nat)
    requires HeadOk(L, d) && k <= |Head(L, d)| + 1 && L.Home(b) && RecoverPoint(L, d, k, e)
    ensures HeadOk(L, e) && Durable(L, e, b) == Durable(L, d, b)
    ensures k == |Head(L, d)| + 1 ==> Head(L, e) == [] && e[b] == Durable(L, d, b)
  {
    hide EncodeHead;
    var lh := Head(L, d);
    RecoverPointHead(L, d, k, e);
    StageDurable(L, d, lh, Slots(L, d, |lh|), |lh|, e[L.logstart], if k <= |lh| then k else |lh|, e, b);
  }

  /** A crash inside recovery changes nothing about what the next recovery will produce, and a
      recovery that ran to its end left exactly that on the home blocks, with an empty log. */
  lemma RecoverIdempotent(L: Layout, d: Disk, k: nat, b: nat)
    requires HeadOk(L, d) && k <= |Head(L, d)| + 1 && L.Home(b)
    ensures InBounds(d, RecoverWrites(L, d))
    ensures var e := Apply(d, RecoverWrites(L, d)[..k]);
            && HeadOk(L, e)
            && Durable(L, e, b) == Durable(L, d, b)
            && (k == |Head(L, d)| + 1 ==> Head(L, e) == [] && e[b] == Durable(L, d, b))
  {
    RecoverPrefix(L, d, k);
    RecoverPointDurable(L, d, k, Apply(d, RecoverWrites(L, d)[..k]), b);
  }

  lemma AttemptOk(L: Layout, d: Disk, k: nat)
    requires HeadOk(L, d) && k <= |Head(L, d)| + 1
    ensures InBounds(d, RecoverWrites(L, d)) && HeadOk(L, Apply(d, RecoverWrites(L, d)[..k]))
  {
    RecoverPrefix(L, d, k);
    RecoverPointHead(L, d, k, Apply(d, RecoverWrites(L, d)[..k]));
  }

  /** The disk after attempts at recovery of which the i-th gets at most cuts[i] writes out before it crashes. */
  ghost function Restarted(L: Layout, d: Disk, cuts: seq<nat>): (e: Disk)
    requires HeadOk(L, d)
    ensures HeadOk(L, e)
    decreases |cuts|
  {
    if cuts == [] then d
    else
      var n := |Head(L, d)| + 1;
      var k := if cuts[0] < n then cuts[0] else n;
      AttemptOk(L, d, k);
      Restarted(L, Apply(d, RecoverWrites(L, d)[..k]), cuts[1..])
  }

  /** However often recovery crashes and restarts, the attempt that comes to its end leaves on every home block
      what the first disk stood for, and an empty log. */
  lemma {:induction false} RestartedRecovery(L: Layout, d: Disk, cuts: seq<nat>, b: nat)
    requires HeadOk(L, d) && L.Home(b)
    ensures var e := Restarted(L, d, cuts);
            && Durable(L, e, b) == Durable(L, d, b)
            && InBounds(e, RecoverWrites(L, e))
            && var f := Apply(e, RecoverWrites(L, e));
               HeadOk(L, f) && Head(L, f) == [] && f[b] == Durable(L, d, b)
    decreases |cuts|
  {
    hide Durable, RecoverWrites, Apply;
    if cuts == [] {
      var ws := RecoverWrites(L, d);
      RecoverIdempotent(L, d, |ws|, b);
      assert ws[..|ws|] == ws;
    } else {
      var n := |Head(L, d)| + 1;
      var k := if cuts[0] < n then cuts[0] else n;
      RecoverIdempotent(L, d, k, b);
      RestartedRecovery(L, Apply(d, RecoverWrites(L, d)[..k]), cuts[1..], b);
    }
  }
}
