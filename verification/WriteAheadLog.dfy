/** The logging protocol of kernel/log.c over the buffer cache, as a machine whose steps are the
    critical sections of begin_op, log_write and end_op, the single block writes of a commit or a
    recovery, cache fills and evictions, and crashes that may follow any step. */
module WriteAheadLog {
  import opened Basics
  import opened LogDisk

  type OpId = nat

  /** A block update handed to log_write by operation op. */
  datatype Update = Update(op: OpId, addr: nat, data: Block)

  /** The operations that share one commit, and their updates in order. */
  datatype Group = Group(ops: set<OpId>, updates: seq<Update>)

  const NoGroup := Group({}, [])

  /** k counts the block writes of the commit or recovery that have reached the disk.  Halted is a
      panic. */
  datatype Phase = Running | Committing(k: nat) | Recovering(k: nat) | Halted

  /** The disk, the cache with its pinned blocks, and log.lh.  base and vals are history: the disk
      when the commit or recovery began, and the blocks being committed. */
  datatype Store = Store(disk: Disk, phase: Phase, lh: seq<nat>, cache: map<nat, Block>, pinned: set<nat>,
                         base: Disk, vals: seq<Block>)

  /** |active| is log.outstanding; active counts the blocks each operation has added.  The rest is
      history: cur is the group being filled or committed, done the groups whose commit header reached
      the disk, lost those dropped by crashes, ended the operations that went through end_op. */
  datatype Book = Book(active: map<OpId, nat>, cur: Group, done: seq<Group>, lost: seq<Group>, ended: set<OpId>)

  datatype State = State(st: Store, bk: Book)

  datatype Step =
    | Begin(op: OpId)
    | LogWrite(op: OpId, addr: nat, data: Block)
    | End(op: OpId)
    | WriteBlock
    | Fill(b: nat)
    | Evict(b: nat)
    | Crash

  /** Power-on: recovery has read the header and is about to write. */
  function Boot(L: Layout, d: Disk): State
    requires HeadOk(L, d)
  {
    State(Store(d, Recovering(0), Head(L, d), map[], {}, d, []), Book(map[], NoGroup, [], [], {}))
  }

  predicate Fresh(bk: Book, op: OpId) {
    && op !in bk.cur.ops
    && (forall i :: 0 <= i < |bk.done| ==> op !in bk.done[i].ops)
    && (forall i :: 0 <= i < |bk.lost| ==> op !in bk.lost[i].ops)
  }

  /** begin_op admits an operation only when the log has room for all it may add; log_write expects a
      cached home block and an operation that adds at most MAXOPBLOCKS blocks. */
  predicate Enabled(L: Layout, s: State, step: Step) {
    var st, bk := s.st, s.bk;
    match step
    case Begin(op) =>
      st.phase.Running? && Fresh(bk, op) && |st.lh| + (|bk.active| + 1) * MAXOPBLOCKS <= LOGSIZE
    case LogWrite(op, b, _) =>
      && st.phase.Running? && op in bk.active && L.Home(b) && b in st.cache
      && (b in st.lh || bk.active[op] < MAXOPBLOCKS)
    case End(op) => st.phase.Running? && op in bk.active
    case WriteBlock => st.phase.Committing? || st.phase.Recovering?
    case Fill(b) => !st.phase.Halted? && b < L.size && b !in st.cache
    case Evict(b) => !st.phase.Halted? && b in st.cache && b !in st.pinned
    case Crash => true
  }

  /** bread: the cached copy, or else the disk's. */
  function Bread(st: Store, b: nat): Block
    requires b < |st.disk|
  {
    if b in st.cache then st.cache[b] else st.disk[b]
  }

  /** bwrite: the cached copy goes to the disk. */
  function Bwrite(st: Store, w: DiskWrite): Store
    requires w.addr < |st.disk|
  {
    st.(disk := st.disk[w.addr := w.data], cache := st.cache[w.addr := w.data])
  }

  /** Enough for every step to be defined. */
  predicate Shape(L: Layout, st: Store) {
    && HeadOk(L, st.disk)
    && LogOk(L, st.lh)
    && (st.phase.Committing? ==> st.phase.k < 2 * |st.lh| + 2)
    && (st.phase.Recovering? ==> st.phase.k <= |st.lh|)
  }

  /** The next block write of commit: write_log, write_head, install_trans, write_head. */
  function CommitStepWrite(L: Layout, st: Store): DiskWrite
    requires Shape(L, st) && st.phase.Committing?
  {
    var n, k := |st.lh|, st.phase.k;
    if k < n then DiskWrite(L.logstart + 1 + k, Bread(st, st.lh[k]))
    else if k == n then HeadWrite(L, Bread(st, L.logstart), st.lh)
    else if k <= 2 * n then DiskWrite(st.lh[k - n - 1], Bread(st, L.logstart + (k - n)))
    else HeadWrite(L, Bread(st, L.logstart), [])
  }

  /** The next block write of recover_from_log. */
  function RecoverStepWrite(L: Layout, st: Store): DiskWrite
    requires Shape(L, st) && st.phase.Recovering?
  {
    var n, k := |st.lh|, st.phase.k;
    if k < n then DiskWrite(st.lh[k], Bread(st, L.logstart + 1 + k))
    else HeadWrite(L, Bread(st, L.logstart), [])
  }

  function Do(L: Layout, s: State, step: Step): State
    requires Shape(L, s.st) && Enabled(L, s, step)
  {
    match step
    case Begin(op) => s.(bk := s.bk.(active := s.bk.active[op := 0], cur := s.bk.cur.(ops := s.bk.cur.ops + {op})))
    case LogWrite(op, b, data) => DoLogWrite(L, s, op, b, data)
    case End(op) => DoEnd(s, op)
    case WriteBlock => if s.st.phase.Committing? then DoCommitWrite(L, s) else DoRecoverWrite(L, s)
    case Fill(b) => s.(st := s.st.(cache := s.st.cache[b := s.st.disk[b]]))
    case Evict(b) => s.(st := s.st.(cache := s.st.cache - {b}))
    case Crash =>
      State(s.st.(phase := Recovering(0), lh := Head(L, s.st.disk), cache := map[], pinned := {}, base := s.st.disk),
            s.bk.(active := map[], cur := NoGroup, lost := s.bk.lost + [s.bk.cur]))
  }

  function DoLogWrite(L: Layout, s: State, op: OpId, b: nat, data: Block): State
    requires op in s.bk.active
  {
    var st, bk := s.st, s.bk;
    if |st.lh| >= LOGSIZE || |st.lh| >= L.nlog - 1 then s.(st := st.(phase := Halted))
    else
      var bk' := bk.(cur := bk.cur.(updates := bk.cur.updates + [Update(op, b, data)]));
      if b in st.lh then  // absorbed
        State(st.(cache := st.cache[b := data]), bk')
      else
        State(st.(cache := st.cache[b := data], lh := st.lh + [b], pinned := st.pinned + {b}),
              bk'.(active := bk.active[op := bk.active[op] + 1]))
  }

  /** The logged blocks, as the cache has them. */
  function Gather(st: Store): (vals: seq<Block>)
    ensures |vals| == |st.lh|
  {
    seq(|st.lh|, i requires 0 <= i < |st.lh| =>
      if st.lh[i] in st.cache then st.cache[st.lh[i]] else Blank)
  }

  function DoEnd(s: State, op: OpId): State {
    var st, bk := s.st, s.bk.(active := s.bk.active - {op}, ended := s.bk.ended + {op});
    if bk.active != map[] then s.(bk := bk)
    else if st.lh == [] then s.(bk := Close(bk))
    else State(st.(phase := Committing(0), base := st.disk, vals := Gather(st)), bk)
  }

  /** The current group has reached the disk. */
  function Close(bk: Book): Book {
    bk.(done := bk.done + [bk.cur], cur := NoGroup)
  }

  function DoCommitWrite(L: Layout, s: State): State
    requires Shape(L, s.st) && s.st.phase.Committing?
  {
    var w, n, k := CommitStepWrite(L, s.st), |s.st.lh|, s.st.phase.k;
    var st := Bwrite(s.st, w);
    if k == 2 * n + 1 then s.(st := st.(phase := Running, lh := []))
    else State(st.(phase := Committing(k + 1), pinned := if k < n + 1 then st.pinned else st.pinned - {w.addr}),
               if k == n then Close(s.bk) else s.bk)
  }

  function DoRecoverWrite(L: Layout, s: State): State
    requires Shape(L, s.st) && s.st.phase.Recovering?
  {
    var st := Bwrite(s.st, RecoverStepWrite(L, s.st));
    s.(st := if s.st.phase.k == |s.st.lh| then st.(phase := Running, lh := [])
             else st.(phase := Recovering(s.st.phase.k + 1)))
  }

  // ---------------------------------------------------------------- what the disk should hold

  /** The disk recovery makes of d. */
  function Recovered(L: Layout, d: Disk): (e: Disk)
    requires HeadOk(L, d)
    ensures |e| == L.size
  {
    seq(L.size, b requires 0 <= b < L.size => if L.Home(b) then Durable(L, d, b) else d[b])
  }

  function Replay(d: Disk, us: seq<Update>): (e: Disk)
    ensures |e| == |d|
  {
    if us == [] then d
    else
      var e, u := Replay(d, us[..|us| - 1]), us[|us| - 1];
      if u.addr < |d| then e[u.addr := u.data] else e
  }

  function Updates(gs: seq<Group>): seq<Update> {
    if gs == [] then [] else Updates(gs[..|gs| - 1]) + gs[|gs| - 1].updates
  }

  /** The first disk with the committed groups applied in order. */
  function Committed(L: Layout, d0: Disk, bk: Book): (e: Disk)
    requires HeadOk(L, d0)
    ensures |e| == L.size
  {
    Replay(Recovered(L, d0), Updates(bk.done))
  }

  /** That, and the updates of the group in progress: what file-system code should see. */
  function Logical(L: Layout, d0: Disk, bk: Book): (e: Disk)
    requires HeadOk(L, d0)
    ensures |e| == L.size
  {
    Replay(Recovered(L, d0), Updates(bk.done) + bk.cur.updates)
  }

  // ---------------------------------------------------------------- invariant

  /** The disk is where the writes so far should have left it, and exactly the blocks still to be
      installed are pinned. */
  ghost predicate OnTrack(L: Layout, st: Store)
    requires Shape(L, st)
  {
    match st.phase
    case Running =>
      && Head(L, st.disk) == []
      && (forall b :: b in st.pinned <==> b in st.lh)
    case Committing(k) =>
      && st.lh != []
      && HeadOk(L, st.base) && Head(L, st.base) == [] && |st.vals| == |st.lh|
      && CommitPoint(L, st.base, st.lh, st.vals, k, st.disk)
      && (forall i :: 0 <= i < |st.lh| ==> (st.lh[i] in st.pinned <==> k < |st.lh| + 2 + i))
      && (forall b :: b in st.pinned ==> b in st.lh)
    case Recovering(k) =>
      HeadOk(L, st.base) && st.lh == Head(L, st.base) && RecoverPoint(L, st.base, k, st.disk) && st.pinned == {}
    case Halted => true
  }

  /** What recovery would produce, on the home blocks. */
  ghost predicate Durably(L: Layout, d: Disk, committed: Disk)
    requires HeadOk(L, d) && |committed| == L.size
  {
    forall b: nat :: L.Home(b) ==> Durable(L, d, b) == committed[b]
  }

  /** The cache never hides or invents a block: log blocks and blocks under recovery are as on disk,
      home blocks are as `logical`, on disk too unless pinned. */
  ghost predicate Coherent(L: Layout, st: Store, logical: Disk)
    requires L.Valid() && |st.disk| == |logical| == L.size
  {
    && (forall b :: b in st.cache ==> b < L.size)
    && (forall b :: b in st.cache && (st.phase.Recovering? || !L.Home(b)) ==> st.cache[b] == st.disk[b])
    && (st.phase.Running? || st.phase.Committing? ==>
          && (forall b :: b in st.cache && L.Home(b) ==> st.cache[b] == logical[b])
          && (forall b :: b in st.pinned ==> b in st.cache)
          && (forall b: nat :: L.Home(b) && b !in st.pinned ==> st.disk[b] == logical[b]))
    && (st.phase.Committing? ==>
          && |st.vals| == |st.lh|
          && forall i :: 0 <= i < |st.lh| ==> L.Home(st.lh[i]) && st.vals[i] == logical[st.lh[i]])
  }

  ghost function Added(active: map<OpId, nat>): nat {
    if active == map[] then 0
    else
      var op :| op in active;
      active[op] + Added(active - {op})
  }

  /** The log has room for everything the outstanding operations may still add. */
  ghost predicate Reserved(lh: seq<nat>, active: map<OpId, nat>) {
    && (forall op :: op in active ==> active[op] <= MAXOPBLOCKS)
    && |lh| + |active| * MAXOPBLOCKS - Added(active) <= LOGSIZE
  }

  predicate Closed(g: Group, ended: set<OpId>) {
    g.ops <= ended && forall i :: 0 <= i < |g.updates| ==> g.updates[i].op in g.ops
  }

  /** Operations never straddle groups, and a committed group holds only ended operations. */
  ghost predicate Grouped(bk: Book) {
    && Closed(bk.cur, bk.active.Keys + bk.ended)
    && bk.active.Keys <= bk.cur.ops
    && (forall i :: 0 <= i < |bk.done| ==> Closed(bk.done[i], bk.ended))
    && (forall i, j :: 0 <= i < j < |bk.done| ==> bk.done[i].ops !! bk.done[j].ops)
    && (forall i :: 0 <= i < |bk.done| ==> bk.done[i].ops !! bk.cur.ops)
    && (forall j :: 0 <= j < |bk.lost| ==> bk.lost[j].ops !! bk.cur.ops)
    && (forall i, j :: 0 <= i < |bk.done| && 0 <= j < |bk.lost| ==> bk.done[i].ops !! bk.lost[j].ops)
  }

  ghost predicate Quiet(s: State) {
    && (s.st.phase.Committing? || s.st.phase.Recovering? ==> s.bk.active == map[])
    && (s.st.phase.Recovering? ==> s.bk.cur == NoGroup)
  }

  ghost predicate StoreInv(L: Layout, st: Store, committed: Disk, logical: Disk)
    requires |committed| == |logical| == L.size
  {
    && Shape(L, st)
    && OnTrack(L, st)
    && Durably(L, st.disk, committed)
    && Coherent(L, st, logical)
  }

  ghost predicate Inv(L: Layout, d0: Disk, s: State) {
    && HeadOk(L, d0)
    && StoreInv(L, s.st, Committed(L, d0, s.bk), Logical(L, d0, s.bk))
    && Reserved(s.st.lh, s.bk.active)
    && Grouped(s.bk)
    && Quiet(s)
  }

  // ---------------------------------------------------------------- helpers

  lemma {:induction false} AddedRemove(m: map<OpId, nat>, op: OpId)
    requires op in m
    ensures Added(m) == m[op] + Added(m - {op})
    decreases |m|
  {
    var x :| x in m && Added(m) == m[x] + Added(m - {x});
    if x != op {
      AddedRemove(m - {x}, op);
      AddedRemove(m - {op}, x);
      assert m - {x} - {op} == m - {op} - {x};
    }
  }

  lemma AddedUpdate(m: map<OpId, nat>, op: OpId, v: nat)
    ensures Added(m[op := v]) == v + Added(m - {op})
  {
    AddedRemove(m[op := v], op);
    assert m[op := v] - {op} == m - {op};
  }

  lemma KeepOthers(m: map<OpId, nat>, op: OpId, v: nat)
    ensures op !in m ==> m - {op} == m && |m[op := v]| == |m| + 1
    ensures op in m ==> |m[op := v]| == |m| && |m - {op}| == |m| - 1
  {
    assert m[op := v].Keys == m.Keys + {op};
    assert (m - {op}).Keys == m.Keys - {op};
  }

  lemma {:induction false} AddedBound(m: map<OpId, nat>)
    requires forall op :: op in m ==> m[op] <= MAXOPBLOCKS
    ensures Added(m) <= |m| * MAXOPBLOCKS
    decreases |m|
  {
    if m != map[] {
      var op :| op in m;
      AddedRemove(m, op);
      KeepOthers(m, op, 0);
      AddedBound(m - {op});
    }
  }

  lemma UpdatesAppend(gs: seq<Group>, g: Group)
    ensures Updates(gs + [g]) == Updates(gs) + g.updates
  {
    assert (gs + [g])[..|gs|] == gs;
  }

  lemma ReplayAppend(d: Disk, us: seq<Update>, u: Update)
    requires u.addr < |d|
    ensures Replay(d, us + [u]) == Replay(d, us)[u.addr := u.data]
  {
    assert (us + [u])[..|us|] == us;
  }

  /** Closing the group makes what was seen the committed contents. */
  lemma CloseContents(L: Layout, d0: Disk, bk: Book)
    requires HeadOk(L, d0)
    ensures Committed(L, d0, Close(bk)) == Logical(L, d0, bk) == Logical(L, d0, Close(bk))
  {
    UpdatesAppend(bk.done, bk.cur);
    assert Updates(bk.done + [bk.cur]) + [] == Updates(bk.done) + bk.cur.updates;
  }

  lemma CloseGrouped(bk: Book)
    requires Grouped(bk) && bk.active == map[]
    ensures Grouped(Close(bk))
  {
  }

  lemma BootInv(L: Layout, d: Disk)
    requires HeadOk(L, d)
    ensures Inv(L, d, Boot(L, d))
  {
    assert Updates([]) == [];
  }

  // ---------------------------------------------------------------- every step keeps the invariant

  lemma BeginReserved(lh: seq<nat>, active: map<OpId, nat>, op: OpId)
    requires Reserved(lh, active) && op !in active
    requires |lh| + (|active| + 1) * MAXOPBLOCKS <= LOGSIZE
    ensures Reserved(lh, active[op := 0])
  {
    KeepOthers(active, op, 0);
    AddedUpdate(active, op, 0);
  }

  lemma BeginGrouped(bk: Book, op: OpId)
    requires Grouped(bk) && Fresh(bk, op)
    ensures Grouped(bk.(active := bk.active[op := 0], cur := bk.cur.(ops := bk.cur.ops + {op})))
  {
  }

  lemma BeginInv(L: Layout, d0: Disk, s: State, op: OpId)
    requires Inv(L, d0, s) && Enabled(L, s, Begin(op))
    ensures Inv(L, d0, Do(L, s, Begin(op)))
  {
    hide StoreInv, Reserved;
    BeginReserved(s.st.lh, s.bk.active, op);
    BeginGrouped(s.bk, op);
  }

  lemma FreshIdle(L: Layout, d0: Disk, s: State, op: OpId)
    requires Inv(L, d0, s) && Fresh(s.bk, op)
    ensures op !in s.bk.active
  {
    hide StoreInv, Reserved;
  }

  /** A new block fits the log: the operation that adds it had reserved the room. */
  lemma RoomForNewBlock(lh: seq<nat>, active: map<OpId, nat>, op: OpId)
    requires Reserved(lh, active) && op in active && active[op] < MAXOPBLOCKS
    ensures |lh| < LOGSIZE
    ensures forall b: nat :: Reserved(lh + [b], active[op := active[op] + 1])
  {
    var active' := active[op := active[op] + 1];
    KeepOthers(active, op, active[op] + 1);
    AddedUpdate(active, op, active[op] + 1);
    AddedRemove(active, op);
    AddedBound(active');
  }

  lemma LogWriteContents(L: Layout, d0: Disk, bk: Book, op: OpId, b: nat, data: Block)
    requires HeadOk(L, d0) && L.Home(b)
    ensures var bk' := bk.(cur := bk.cur.(updates := bk.cur.updates + [Update(op, b, data)]));
            Logical(L, d0, bk') == Logical(L, d0, bk)[b := data]
  {
    var us := Updates(bk.done) + bk.cur.updates;
    ReplayAppend(Recovered(L, d0), us, Update(op, b, data));
    assert Updates(bk.done) + (bk.cur.updates + [Update(op, b, data)]) == us + [Update(op, b, data)];
  }

  lemma LogWriteStore(L: Layout, st: Store, committed: Disk, logical: Disk, b: nat, data: Block)
    requires |committed| == |logical| == L.size && StoreInv(L, st, committed, logical)
    requires st.phase.Running? && L.Home(b) && b in st.cache && |st.lh| < LOGSIZE && |st.lh| < L.nlog - 1
    ensures b in st.lh ==>
              StoreInv(L, st.(cache := st.cache[b := data]), committed, logical[b := data])
    ensures b !in st.lh ==>
              StoreInv(L, st.(cache := st.cache[b := data], lh := st.lh + [b], pinned := st.pinned + {b}),
                       committed, logical[b := data])
  {
  }

  lemma HaltStore(L: Layout, st: Store, committed: Disk, logical: Disk)
    requires |committed| == |logical| == L.size && StoreInv(L, st, committed, logical)
    ensures StoreInv(L, st.(phase := Halted), committed, logical)
  {
  }

  lemma LogWriteGrouped(bk: Book, op: OpId, b: nat, data: Block, n: nat)
    requires Grouped(bk) && op in bk.active
    ensures var bk' := bk.(cur := bk.cur.(updates := bk.cur.updates + [Update(op, b, data)]));
            Grouped(bk') && Grouped(bk'.(active := bk.active[op := n]))
  {
    assert bk.active[op := n].Keys == bk.active.Keys;
  }

  lemma LogWriteInv(L: Layout, d0: Disk, s: State, op: OpId, b: nat, data: Block)
    requires Inv(L, d0, s) && Enabled(L, s, LogWrite(op, b, data))
    ensures Inv(L, d0, Do(L, s, LogWrite(op, b, data)))
  {
    hide StoreInv, Reserved, Grouped;
    LogWriteGrouped(s.bk, op, b, data, s.bk.active[op] + 1);
    if |s.st.lh| >= LOGSIZE || |s.st.lh| >= L.nlog - 1 {
      HaltStore(L, s.st, Committed(L, d0, s.bk), Logical(L, d0, s.bk));
    } else {
      LogWriteContents(L, d0, s.bk, op, b, data);
      LogWriteStore(L, s.st, Committed(L, d0, s.bk), Logical(L, d0, s.bk), b, data);
      if b !in s.st.lh {
        RoomForNewBlock(s.st.lh, s.bk.active, op);
      }
    }
  }

  lemma EndReserved(lh: seq<nat>, active: map<OpId, nat>, op: OpId)
    requires Reserved(lh, active) && op in active
    ensures Reserved(lh, active - {op})
  {
    KeepOthers(active, op, 0);
    AddedRemove(active, op);
  }

  lemma EndGrouped(bk: Book, op: OpId)
    requires Grouped(bk) && op in bk.active
    ensures Grouped(bk.(active := bk.active - {op}, ended := bk.ended + {op}))
  {
  }

  lemma CommitBegins(L: Layout, st: Store, committed: Disk, logical: Disk)
    requires |committed| == |logical| == L.size && StoreInv(L, st, committed, logical) && st.phase.Running?
    ensures st.lh != [] ==>
              StoreInv(L, st.(phase := Committing(0), base := st.disk, vals := Gather(st)), committed, logical)
    ensures st.lh == [] ==> Durably(L, st.disk, logical)
  {
  }

  lemma EndInv(L: Layout, d0: Disk, s: State, op: OpId)
    requires Inv(L, d0, s) && Enabled(L, s, End(op))
    ensures Inv(L, d0, Do(L, s, End(op)))
  {
    var bk := s.bk.(active := s.bk.active - {op}, ended := s.bk.ended + {op});
    EndReserved(s.st.lh, s.bk.active, op);
    EndGrouped(s.bk, op);
    if bk.active == map[] {
      CommitBegins(L, s.st, Committed(L, d0, bk), Logical(L, d0, bk));
      if s.st.lh == [] {
        CloseContents(L, d0, bk);
        CloseGrouped(bk);
      }
    }
  }

  /** The cache feeds each commit write the block it should: the k-th write of CommitWrites. */
  lemma CommitStepIs(L: Layout, st: Store, committed: Disk, logical: Disk)
    requires |committed| == |logical| == L.size && StoreInv(L, st, committed, logical) && st.phase.Committing?
    ensures CommitStepWrite(L, st) == CommitWrite(L, st.base[L.logstart], st.lh, st.vals, st.phase.k)
  {
    hide Head, EncodeHead, Durably, Installed, NoDup;
    var n, k := |st.lh|, st.phase.k;
    assert Bread(st, L.logstart) == CommitHead(st.base[L.logstart], st.lh, k);
    if k < n {
      assert st.lh[k] in st.pinned;
    } else if n < k <= 2 * n {
      assert !L.Home(L.logstart + (k - n));
      assert Slot(L, st.disk, k - n - 1) == st.vals[k - n - 1];
    }
  }

  lemma CommitDisk(L: Layout, s: State, committed: Disk, logical: Disk)
    requires |committed| == |logical| == L.size && StoreInv(L, s.st, committed, logical) && s.st.phase.Committing?
    ensures var n, k, d := |s.st.lh|, s.st.phase.k, DoCommitWrite(L, s).st.disk;
            && CommitPoint(L, s.st.base, s.st.lh, s.st.vals, k + 1, d)
            && HeadOk(L, d) && Head(L, d) == if n < k + 1 <= 2 * n + 1 then s.st.lh else []
  {
    hide Stage, EncodeHead, Durably, Coherent, Head, NoDup, CommitStepWrite;
    var st := s.st;
    CommitStepIs(L, st, committed, logical);
    CommitStep(L, st.base, st.lh, st.vals, st.phase.k, st.disk);
    CommitPointHead(L, st.base, st.lh, st.vals, st.phase.k + 1, DoCommitWrite(L, s).st.disk);
  }

  lemma CommitTrack(L: Layout, s: State, committed: Disk, logical: Disk)
    requires |committed| == |logical| == L.size && StoreInv(L, s.st, committed, logical) && s.st.phase.Committing?
    ensures Shape(L, DoCommitWrite(L, s).st) && OnTrack(L, DoCommitWrite(L, s).st)
  {
    hide Stage, EncodeHead, Durably, Coherent, Head, CommitPoint;
    CommitDisk(L, s, committed, logical);
  }

  /** Only the first header write changes what recovery would produce. */
  lemma CommitDurable(L: Layout, s: State, committed: Disk, logical: Disk, b: nat)
    requires |committed| == |logical| == L.size && StoreInv(L, s.st, committed, logical) && s.st.phase.Committing?
    requires L.Home(b)
    ensures var d := DoCommitWrite(L, s).st.disk;
            && HeadOk(L, d)
            && Durable(L, d, b) == if s.st.phase.k == |s.st.lh| then logical[b] else committed[b]
  {
    hide EncodeHead, Durable, Head, CommitStepWrite, CommitHead, Slot, Copied, NoDup;
    var st, d, k := s.st, DoCommitWrite(L, s).st.disk, s.st.phase.k;
    CommitDisk(L, s, committed, logical);
    CommitPointDurable(L, st.base, st.lh, st.vals, k, st.disk, b);
    CommitPointDurable(L, st.base, st.lh, st.vals, k + 1, d, b);
  }

  lemma CommitCoherent(L: Layout, s: State, committed: Disk, logical: Disk)
    requires |committed| == |logical| == L.size && StoreInv(L, s.st, committed, logical) && s.st.phase.Committing?
    ensures |DoCommitWrite(L, s).st.disk| == L.size && Coherent(L, DoCommitWrite(L, s).st, logical)
  {
    hide EncodeHead, Head, CommitStepWrite, Stage, OnTrack, Durably, NoDup;
    CommitStepIs(L, s.st, committed, logical);
    if |s.st.lh| < s.st.phase.k <= 2 * |s.st.lh| {
      assert L.Home(s.st.lh[s.st.phase.k - |s.st.lh| - 1]);
    }
  }

  lemma CommitWriteInv(L: Layout, d0: Disk, s: State)
    requires Inv(L, d0, s) && s.st.phase.Committing?
    ensures Inv(L, d0, DoCommitWrite(L, s))
  {
    hide Shape, OnTrack, Coherent, Durable, Logical, Committed, CommitStepWrite;
    var committed, logical := Committed(L, d0, s.bk), Logical(L, d0, s.bk);
    CommitTrack(L, s, committed, logical);
    forall b: nat | L.Home(b) {
      CommitDurable(L, s, committed, logical, b);
    }
    CommitCoherent(L, s, committed, logical);
    CloseContents(L, d0, s.bk);
    CloseGrouped(s.bk);
  }

  lemma RecoverTrack(L: Layout, s: State, committed: Disk, logical: Disk)
    requires |committed| == |logical| == L.size && StoreInv(L, s.st, committed, logical) && s.st.phase.Recovering?
    ensures Shape(L, DoRecoverWrite(L, s).st) && OnTrack(L, DoRecoverWrite(L, s).st)
    ensures RecoverPoint(L, s.st.base, s.st.phase.k + 1, DoRecoverWrite(L, s).st.disk)
  {
    hide EncodeHead, Durably, Head, Installed, Durable;
    var st, st', k := s.st, DoRecoverWrite(L, s).st, s.st.phase.k;
    assert RecoverStepWrite(L, st) == RecoverWrite(L, st.base, k) by {
      if k < |st.lh| {
        assert Slot(L, st.disk, k) == Slots(L, st.base, |st.lh|)[k];
      }
    }
    RecoverStep(L, st.base, k, st.disk);
    RecoverPointHead(L, st.base, k + 1, st'.disk);
  }

  lemma RecoverDurable(L: Layout, s: State, committed: Disk, logical: Disk, b: nat)
    requires |committed| == |logical| == L.size && StoreInv(L, s.st, committed, logical) && s.st.phase.Recovering?
    requires L.Home(b)
    ensures var d := DoRecoverWrite(L, s).st.disk;
            && HeadOk(L, d)
            && Durable(L, d, b) == committed[b]
            && (s.st.phase.k == |s.st.lh| ==> d[b] == committed[b])
  {
    hide EncodeHead, Durable, RecoverPoint, RecoverStepWrite, NoDup;
    var st, d, k := s.st, DoRecoverWrite(L, s).st.disk, s.st.phase.k;
    RecoverTrack(L, s, committed, logical);
    RecoverPointDurable(L, st.base, k, st.disk, b);
    RecoverPointDurable(L, st.base, k + 1, d, b);
  }

  lemma RecoverWriteStore(L: Layout, s: State, committed: Disk)
    requires |committed| == L.size && StoreInv(L, s.st, committed, committed) && s.st.phase.Recovering?
    ensures StoreInv(L, DoRecoverWrite(L, s).st, committed, committed)
  {
    hide EncodeHead, Durable, RecoverPoint, NoDup, Head;
    RecoverTrack(L, s, committed, committed);
    assert s.st.phase.k < |s.st.lh| ==> L.Home(s.st.lh[s.st.phase.k]);
    forall b: nat | L.Home(b) {
      RecoverDurable(L, s, committed, committed, b);
    }
  }

  lemma RecoverWriteInv(L: Layout, d0: Disk, s: State)
    requires Inv(L, d0, s) && Shape(L, s.st) && s.st.phase.Recovering?
    ensures Inv(L, d0, DoRecoverWrite(L, s))
  {
    hide OnTrack, Coherent, Durably, RecoverStepWrite, Grouped;
    assert Added(map[]) == 0;
    NothingPending(L, d0, s.bk);
    RecoverWriteStore(L, s, Committed(L, d0, s.bk));
    var s' := DoRecoverWrite(L, s);
    assert StoreInv(L, s'.st, Committed(L, d0, s'.bk), Logical(L, d0, s'.bk));
    assert Reserved(s'.st.lh, s'.bk.active);
  }

  lemma NothingPending(L: Layout, d0: Disk, bk: Book)
    requires HeadOk(L, d0) && bk.cur.updates == []
    ensures Committed(L, d0, bk) == Logical(L, d0, bk)
  {
    assert Updates(bk.done) + [] == Updates(bk.done);
  }

  lemma FillInv(L: Layout, d0: Disk, s: State, b: nat)
    requires Inv(L, d0, s) && Enabled(L, s, Fill(b))
    ensures Inv(L, d0, Do(L, s, Fill(b)))
  {
  }

  lemma EvictInv(L: Layout, d0: Disk, s: State, b: nat)
    requires Inv(L, d0, s) && Enabled(L, s, Evict(b))
    ensures Inv(L, d0, Do(L, s, Evict(b)))
  {
  }

  lemma CrashStore(L: Layout, st: Store, committed: Disk, logical: Disk)
    requires |committed| == |logical| == L.size && StoreInv(L, st, committed, logical)
    ensures StoreInv(L, st.(phase := Recovering(0), lh := Head(L, st.disk), cache := map[], pinned := {}, base := st.disk),
                     committed, committed)
  {
    StageHere(L, st.disk);
  }

  lemma StageHere(L: Layout, d: Disk)
    requires HeadOk(L, d)
    ensures RecoverPoint(L, d, 0, d)
  {
  }

  lemma CrashGrouped(bk: Book)
    requires Grouped(bk)
    ensures Grouped(bk.(active := map[], cur := NoGroup, lost := bk.lost + [bk.cur]))
  {
  }

  lemma CrashInv(L: Layout, d0: Disk, s: State)
    requires Inv(L, d0, s)
    ensures Inv(L, d0, Do(L, s, Crash))
  {
    hide OnTrack, Coherent, Durably, Grouped;
    var s' := Do(L, s, Crash);
    assert Added(map[]) == 0;
    NothingPending(L, d0, s'.bk);
    CrashStore(L, s.st, Committed(L, d0, s.bk), Logical(L, d0, s.bk));
    CrashGrouped(s.bk);
  }

  // ---------------------------------------------------------------- whole runs

  /** A run from power-on: any interleaving of steps, crashes included. */
  ghost predicate Run(L: Layout, d0: Disk, ss: seq<State>) {
    && HeadOk(L, d0)
    && |ss| > 0
    && ss[0] == Boot(L, d0)
    && forall i :: 0 <= i < |ss| - 1 ==> Next(L, ss[i], ss[i + 1])
  }

  ghost predicate Next(L: Layout, s: State, s': State) {
    Shape(L, s.st) && exists step :: Enabled(L, s, step) && s' == Do(L, s, step)
  }

  lemma StepInv(L: Layout, d0: Disk, s: State, step: Step)
    requires Inv(L, d0, s) && Enabled(L, s, step)
    ensures Inv(L, d0, Do(L, s, step))
  {
    match step
    case Begin(op) => BeginInv(L, d0, s, op);
    case LogWrite(op, b, data) => LogWriteInv(L, d0, s, op, b, data);
    case End(op) => EndInv(L, d0, s, op);
    case WriteBlock =>
      if s.st.phase.Committing? { CommitWriteInv(L, d0, s); } else { RecoverWriteInv(L, d0, s); }
    case Fill(b) => FillInv(L, d0, s, b);
    case Evict(b) => EvictInv(L, d0, s, b);
    case Crash => CrashInv(L, d0, s);
  }

  lemma {:induction false} RunInv(L: Layout, d0: Disk, ss: seq<State>, i: nat)
    requires Run(L, d0, ss) && i < |ss|
    ensures Inv(L, d0, ss[i])
  {
    hide Inv, Do, Enabled, Boot;
    if i == 0 {
      BootInv(L, d0);
    } else {
      RunInv(L, d0, ss, i - 1);
      assert Next(L, ss[i - 1], ss[i]);
      var step :| Enabled(L, ss[i - 1], step) && ss[i] == Do(L, ss[i - 1], step);
      StepInv(L, d0, ss[i - 1], step);
    }
  }

  /** A run never takes back a committed group, nor commits a dropped one. */
  lemma {:induction false} DoneGrows(L: Layout, d0: Disk, ss: seq<State>, i: nat, j: nat)
    requires Run(L, d0, ss) && i <= j < |ss|
    ensures ss[i].bk.done <= ss[j].bk.done && ss[i].bk.lost <= ss[j].bk.lost && ss[i].bk.ended <= ss[j].bk.ended
  {
    if i < j {
      DoneGrows(L, d0, ss, i, j - 1);
      assert Next(L, ss[j - 1], ss[j]);
    }
  }

  /** Whole-run durability.  Recovering from any state of any run gives the first disk with exactly the
      committed groups applied in order.  Those groups never share an operation with each other, with
      a group lost in a crash, or with the current group, and hold only operations that have ended.
      A later state's committed groups extend an earlier state's. */
  lemma WholeRunDurability(L: Layout, d0: Disk, ss: seq<State>, i: nat, j: nat, b: nat)
    requires Run(L, d0, ss) && i <= j < |ss| && L.Home(b)
    ensures var s := ss[j];
            && HeadOk(L, s.st.disk)
            && Durable(L, s.st.disk, b) == Replay(Recovered(L, d0), Updates(s.bk.done))[b]
            && ss[i].bk.done <= s.bk.done
            && (forall g :: g in s.bk.done ==> Closed(g, s.bk.ended))
            && (forall g, h :: 0 <= g < h < |s.bk.done| ==> s.bk.done[g].ops !! s.bk.done[h].ops)
            && (forall g, h :: g in s.bk.done && h in s.bk.lost ==> g.ops !! h.ops)
  {
    RunInv(L, d0, ss, j);
    DoneGrows(L, d0, ss, i, j);
    assert Durably(L, ss[j].st.disk, Committed(L, d0, ss[j].bk));
  }

  lemma RecoveryEndStep(L: Layout, s: State, s': State)
    requires Next(L, s, s') && s.st.phase.Recovering? && s'.st.phase.Running?
    ensures s'.bk == s.bk && s'.st.lh == []
  {
  }

  /** When recovery ends the home blocks hold the committed groups and nothing else, on disk. */
  lemma RecoveryEnds(L: Layout, d0: Disk, ss: seq<State>, i: nat, b: nat)
    requires Run(L, d0, ss) && i + 1 < |ss| && L.Home(b)
    requires ss[i].st.phase.Recovering? && ss[i + 1].st.phase.Running?
    ensures HeadOk(L, ss[i + 1].st.disk) && Head(L, ss[i + 1].st.disk) == []
    ensures ss[i + 1].st.disk[b] == Replay(Recovered(L, d0), Updates(ss[i].bk.done))[b]
    ensures ss[i + 1].bk.done == ss[i].bk.done
  {
    hide Do, Enabled, Durable, Grouped, Reserved;
    RunInv(L, d0, ss, i);
    RunInv(L, d0, ss, i + 1);
    assert Next(L, ss[i], ss[i + 1]);
    RecoveryEndStep(L, ss[i], ss[i + 1]);
    NothingPending(L, d0, ss[i].bk);
    assert b !in ss[i + 1].st.pinned;
  }

  /** Cache coherence over whole runs: outside recovery, bread returns every update logged so far. */
  lemma BreadIsLogical(L: Layout, d0: Disk, ss: seq<State>, i: nat, b: nat)
    requires Run(L, d0, ss) && i < |ss| && L.Home(b)
    requires ss[i].st.phase.Running? || ss[i].st.phase.Committing?
    ensures HeadOk(L, ss[i].st.disk)
    ensures Bread(ss[i].st, b) == Replay(Recovered(L, d0), Updates(ss[i].bk.done) + ss[i].bk.cur.updates)[b]
  {
    RunInv(L, d0, ss, i);
  }

  /** Log reservation over whole runs: the logged blocks and all unused reservations fit the log, the
      logged block numbers are distinct home blocks, and each is pinned until it is installed. */
  lemma ReservationHolds(L: Layout, d0: Disk, ss: seq<State>, i: nat)
    requires Run(L, d0, ss) && i < |ss|
    ensures var st, bk := ss[i].st, ss[i].bk;
            && |st.lh| + |bk.active| * MAXOPBLOCKS - Added(bk.active) <= LOGSIZE
            && Added(bk.active) <= |bk.active| * MAXOPBLOCKS
            && LogOk(L, st.lh)
            && (st.phase.Running? ==> forall b :: b in st.lh ==> b in st.pinned && b in st.cache)
  {
    RunInv(L, d0, ss, i);
    AddedBound(ss[i].bk.active);
  }

  /** When log_write panics, over every run: exactly when the on-disk log has no block left, or when the header is
      full and the block is one that would be absorbed.  A new block never meets a full header. */
  lemma LogWritePanic(L: Layout, d0: Disk, ss: seq<State>, i: nat, op: OpId, b: nat, data: Block)
    requires Run(L, d0, ss) && i < |ss| && Enabled(L, ss[i], LogWrite(op, b, data))
    ensures Shape(L, ss[i].st)
    ensures Do(L, ss[i], LogWrite(op, b, data)).st.phase.Halted? <==>
            |ss[i].st.lh| == L.nlog - 1 || (b in ss[i].st.lh && |ss[i].st.lh| == LOGSIZE)
    ensures b !in ss[i].st.lh ==> |ss[i].st.lh| < LOGSIZE
  {
    RunInv(L, d0, ss, i);
    if b !in ss[i].st.lh {
      RoomForNewBlock(ss[i].st.lh, ss[i].bk.active, op);
    }
  }
}
