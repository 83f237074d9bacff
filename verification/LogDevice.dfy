/** kernel/log.c as it runs: the in-memory header, the cached blocks and the disk, changed in place.
    `trace` is the history of block writes that reached the disk; the methods are proved to issue
    exactly the write sequences whose every prefix the crash theorems of LogDisk speak of. */
module LogDevice {
  import opened Basics
  import opened LogDisk
  import Wal = WriteAheadLog

  class Log {
    const L: Layout
    var disk: Disk
    var cache: map<nat, Block>
    var pinned: set<nat>
    var n: nat                // log.lh.n
    const block: array<nat>   // log.lh.block
    var outstanding: nat
    var committing: bool
    ghost const disk0: Disk
    ghost var trace: seq<DiskWrite>

    ghost predicate Valid()
      reads this, block
    {
      && L.Valid() && |disk| == L.size
      && block.Length == LOGSIZE && n <= LOGSIZE
      && LogOk(L, Logged())
      && |disk0| == L.size && InBounds(disk0, trace) && disk == Apply(disk0, trace)
      && (forall b :: b in cache ==> b < L.size)
      && (forall b :: b in cache && !L.Home(b) ==> cache[b] == disk[b])
    }

    ghost function Logged(): (lh: seq<nat>)
      requires n <= block.Length
      reads this, block
      ensures |lh| == n
    {
      block[..n]
    }

    /** No committed transaction waits on disk. */
    ghost predicate Clean()
      reads this
    {
      HeadOk(L, disk) && Head(L, disk) == []
    }

    /** Memory at boot, before recovery. */
    constructor (L: Layout, d: Disk)
      requires L.Valid() && |d| == L.size
      ensures Valid() && n == 0 && this.L == L && disk == disk0 == d && trace == []
      ensures pinned == {} && outstanding == 0 && !committing && fresh(block)
    {
      this.L, disk, disk0, trace := L, d, d, [];
      cache, pinned, n, outstanding, committing := map[], {}, 0, 0, false;
      block := new nat[LOGSIZE](_ => 0);
    }

    /** What bread would return. */
    ghost function Contents(b: nat): Block
      requires b < |disk|
      reads this
    {
      if b in cache then cache[b] else disk[b]
    }

    /** vals are the logged blocks, all of them cached. */
    ghost predicate CachedAs(vals: seq<Block>)
      requires n <= block.Length
      reads this, block
    {
      |vals| == n && forall i :: 0 <= i < n ==> block[i] in cache && cache[block[i]] == vals[i]
    }

    method Bread(b: nat) returns (data: Block)
      requires Valid() && b < L.size
      modifies this`cache
      ensures Valid() && data == old(Contents(b))
      ensures cache == old(cache)[b := data]
    {
      if b !in cache {
        cache := cache[b := disk[b]];
      }
      data := cache[b];
    }

    method Bwrite(b: nat, data: Block)
      requires Valid() && b < L.size
      modifies this`cache, this`disk, this`trace
      ensures Valid()
      ensures disk == old(disk)[b := data] && cache == old(cache)[b := data]
      ensures trace == old(trace) + [DiskWrite(b, data)]
    {
      assert (trace + [DiskWrite(b, data)])[..|trace|] == trace;
      cache := cache[b := data];
      disk := disk[b := data];
      trace := trace + [DiskWrite(b, data)];
    }

    /** The loop of write_head: the words of hb overwritten by the in-memory header. */
    method FillHeader(hb: Block) returns (out: Block)
      requires n <= LOGSIZE == block.Length
      ensures out == EncodeHead(hb, Logged())
    {
      var words: seq<nat> := hb[0 := n];
      var i := 0;
      while i < n
        invariant 0 <= i <= n && |words| == WORDS
        invariant words[0] == n
        invariant words[1..1 + i] == block[..i]
        invariant words[1 + i..] == hb[1 + i..]
      {
        words := words[1 + i := block[i]];
        i := i + 1;
      }
      assert words == [n] + Logged() + hb[1 + n..];
      out := words;
    }

    /** write_head: one block write, of the header block filled from n and block. */
    method WriteHead()
      requires Valid()
      modifies this`cache, this`disk, this`trace
      ensures Valid()
      ensures trace == old(trace) + [HeadWrite(L, old(disk[L.logstart]), Logged())]
      ensures disk == old(disk)[L.logstart := EncodeHead(old(disk[L.logstart]), Logged())]
      ensures forall vals: seq<Block> :: |vals| == n && Copied(L, old(disk), vals, n) ==> Copied(L, disk, vals, n)
    {
      hide Apply, EncodeHead, Copied;
      var hb := Bread(L.logstart);
      assert hb == old(disk[L.logstart]);
      var words := FillHeader(hb);
      Bwrite(L.logstart, words);
      CopiedKept(L, old(disk), words);
    }

    method CopyBlock(tail: nat, ghost vals: seq<Block>)
      requires Valid() && CachedAs(vals) && tail < n && Copied(L, disk, vals, tail)
      modifies this`cache, this`disk, this`trace
      ensures Valid() && CachedAs(vals) && Copied(L, disk, vals, tail + 1)
      ensures disk[L.logstart] == old(disk[L.logstart])
      ensures trace == old(trace) + [DiskWrite(L.logstart + 1 + tail, vals[tail])]
    {
      hide Apply;
      assert forall i :: 0 <= i < n ==> block[i] == Logged()[i] && L.Home(block[i]);
      var from := Bread(block[tail]);
      ghost var before := disk;
      Bwrite(L.logstart + 1 + tail, from);
      forall i | 0 <= i < tail + 1 ensures Slot(L, disk, i) == vals[i] {
        assert i < tail ==> Slot(L, before, i) == vals[i];
      }
    }

    /** write_log: the cached contents of every logged block go to the log area. */
    method WriteLog(ghost vals: seq<Block>)
      requires Valid() && CachedAs(vals)
      modifies this`cache, this`disk, this`trace
      ensures Valid() && CachedAs(vals) && Copied(L, disk, vals, n)
      ensures disk[L.logstart] == old(disk[L.logstart])
      ensures trace == old(trace) + Copies(L, vals)
    {
      hide Apply;
      var tail := 0;
      while tail < n
        invariant 0 <= tail <= n && Valid() && CachedAs(vals) && Copied(L, disk, vals, tail)
        invariant trace == old(trace) + Copies(L, vals)[..tail]
        invariant disk[L.logstart] == old(disk[L.logstart])
      {
        CopyBlock(tail, vals);
        tail := tail + 1;
      }
    }

    method InstallBlock(tail: nat, recovering: bool, ghost vals: seq<Block>)
      requires Valid() && |vals| == n && tail < n && Copied(L, disk, vals, n)
      modifies this`cache, this`disk, this`trace, this`pinned
      ensures Valid() && Copied(L, disk, vals, n)
      ensures disk[L.logstart] == old(disk[L.logstart])
      ensures trace == old(trace) + [DiskWrite(block[tail], vals[tail])]
      ensures pinned == if recovering then old(pinned) else old(pinned) - {block[tail]}
    {
      hide Apply;
      assert block[tail] == Logged()[tail] && L.Home(block[tail]);
      var lbuf := Bread(L.logstart + 1 + tail);
      assert lbuf == Slot(L, disk, tail);
      ghost var before := disk;
      Bwrite(block[tail], lbuf);
      forall i | 0 <= i < n ensures Slot(L, disk, i) == vals[i] {
        assert Slot(L, before, i) == vals[i];
      }
      if !recovering {
        pinned := pinned - {block[tail]};
      }
    }

    /** install_trans: every block of the log area goes to the block number it was logged for. */
    method InstallTrans(recovering: bool, ghost vals: seq<Block>)
      requires Valid() && |vals| == n && Copied(L, disk, vals, n)
      modifies this`cache, this`disk, this`trace, this`pinned
      ensures Valid()
      ensures disk[L.logstart] == old(disk[L.logstart])
      ensures trace == old(trace) + Installs(Logged(), vals)
      ensures pinned == if recovering then old(pinned) else old(pinned) - Members(Logged())
    {
      hide Apply;
      var tail := 0;
      while tail < n
        invariant 0 <= tail <= n && Valid() && Copied(L, disk, vals, n)
        invariant disk[L.logstart] == old(disk[L.logstart])
        invariant trace == old(trace) + Installs(Logged(), vals)[..tail]
        invariant pinned == if recovering then old(pinned) else old(pinned) - Members(block[..tail])
      {
        InstallBlock(tail, recovering, vals);
        assert block[..tail + 1] == block[..tail] + [block[tail]];
        assert Members(block[..tail + 1]) == Members(block[..tail]) + {block[tail]};
        assert Installs(Logged(), vals)[tail] == DiskWrite(block[tail], vals[tail]);
        tail := tail + 1;
      }
    }

    /** log.lh.n = 0; write_head(). */
    method Erase()
      requires Valid()
      modifies this`cache, this`disk, this`trace, this`n
      ensures Valid() && n == 0
      ensures Clean()
      ensures trace == old(trace) + [HeadWrite(L, old(disk[L.logstart]), [])]
    {
      hide Apply, EncodeHead;
      n := 0;
      WriteHead();
      assert Logged() == [];
    }

    /** commit.  end_op calls it with `committing` set, which keeps operations out until it is over. */
    method Commit(ghost vals: seq<Block>)
      requires Valid() && CachedAs(vals) && committing
      modifies this`cache, this`disk, this`trace, this`pinned, this`n
      ensures Valid() && n == 0 && (old(Clean()) ==> Clean())
      ensures trace == old(trace) + CommitWrites(L, old(disk[L.logstart]), old(Logged()), vals)
      ensures pinned == old(pinned) - Members(old(Logged()))
    {
      hide Apply, EncodeHead, CommitWrites, Copies, Installs, Copied, Members, LogOk;
      ghost var lh, head := Logged(), disk[L.logstart];
      if n > 0 {
        WriteLog(vals);
        WriteHead();
        InstallTrans(false, vals);
        Erase();
      }
      CommitSegments(L, head, lh, vals);
    }

    /** read_head: n and block are filled from the header block. */
    method ReadHead()
      requires Valid() && n == 0 && HeadOk(L, disk)
      modifies this`cache, this`n, block
      ensures Valid() && Logged() == Head(L, disk)
    {
      hide Apply;
      var lh := Bread(L.logstart);
      assert lh == disk[L.logstart];
      var m := lh[0];
      var i := 0;
      while i < m
        modifies block
        invariant 0 <= i <= m
        invariant forall j :: 0 <= j < i ==> block[j] == lh[1 + j]
      {
        block[i] := lh[1 + i];
        i := i + 1;
      }
      n := m;
      assert Logged() == Head(L, disk);
    }

    method RecoverFromLog()
      requires Valid() && n == 0 && HeadOk(L, disk)
      modifies this`cache, this`disk, this`trace, this`pinned, this`n, block
      ensures Valid() && n == 0 && pinned == old(pinned) && Clean()
      ensures trace == old(trace) + RecoverWrites(L, old(disk))
    {
      hide Apply, EncodeHead;
      ghost var d := disk;
      ReadHead();
      ghost var vals := Slots(L, d, n);
      ghost var lh := Logged();
      InstallTrans(true, vals);
      Erase();
      assert RecoverWrites(L, d) == Installs(lh, vals) + [HeadWrite(L, d[L.logstart], [])];
    }

    /** log_write: absorb the block or append it; false stands for the two panics. */
    method LogWrite(b: nat) returns (ok: bool)
      requires Valid() && L.Home(b) && b in cache
      modifies this`n, this`pinned, block
      ensures Valid()
      ensures ok <==> old(n) < LOGSIZE && old(n) < L.nlog - 1 && outstanding >= 1
      ensures Logged() == if ok && b !in old(Logged()) then old(Logged()) + [b] else old(Logged())
      ensures pinned == if ok && b !in old(Logged()) then old(pinned) + {b} else old(pinned)
    {
      hide Apply;
      if n >= LOGSIZE || n >= L.nlog - 1 || outstanding < 1 {
        return false;
      }
      var i := 0;
      while i < n && block[i] != b
        invariant 0 <= i <= n
        invariant forall j :: 0 <= j < i ==> block[j] != b
      {
        i := i + 1;
      }
      ghost var lh := Logged();
      assert forall j :: 0 <= j < n ==> lh[j] == block[j];
      block[i] := b;
      if i == n {
        pinned := pinned + {b};
        n := n + 1;
        assert Logged() == lh + [b];
      } else {
        assert lh[i] == b;
        assert Logged() == lh;
      }
      ok := true;
    }

    /** The header and the two counters are those of state s of the logging protocol. */
    ghost predicate Mirrors(s: Wal.State)
      requires n <= block.Length
      reads this, block
    {
      && s.st.lh == Logged() && |s.bk.active| == outstanding
      && (s.st.phase.Running? <==> !committing)
    }

    /** One pass of begin_op's loop by operation op; false means the caller sleeps.  In whatever state s of the
        protocol the log is, op is let in exactly when the protocol allows it, and the invariant of its crash
        theorems goes on to hold: the log keeps room for all that the operations let in may add. */
    method TryBegin(ghost d0: Disk, ghost s: Wal.State, ghost op: Wal.OpId) returns (admitted: bool)
      requires Valid() && Wal.Inv(L, d0, s) && Mirrors(s) && Wal.Fresh(s.bk, op)
      modifies this`outstanding
      ensures admitted <==> Wal.Enabled(L, s, Wal.Begin(op))
      ensures admitted ==>
                && Wal.Inv(L, d0, Wal.Do(L, s, Wal.Begin(op))) && Mirrors(Wal.Do(L, s, Wal.Begin(op)))
                && outstanding == old(outstanding) + 1 && n + outstanding * MAXOPBLOCKS <= LOGSIZE
      ensures !admitted ==> Mirrors(s) && outstanding == old(outstanding)
      ensures !admitted ==> committing || n + (outstanding + 1) * MAXOPBLOCKS > LOGSIZE
    {
      if Wal.Enabled(L, s, Wal.Begin(op)) {
        Wal.BeginInv(L, d0, s, op);
        Wal.FreshIdle(L, d0, s, op);
      }
      hide Wal.Inv, Wal.Fresh;
      admitted := !committing && n + (outstanding + 1) * MAXOPBLOCKS <= LOGSIZE;
      if admitted {
        outstanding := outstanding + 1;
      }
    }

    /** end_op: the last outstanding operation commits the whole group. */
    method EndOp(ghost vals: seq<Block>)
      requires Valid() && CachedAs(vals) && outstanding >= 1 && !committing
      modifies this`cache, this`disk, this`trace, this`pinned, this`n, this`outstanding, this`committing
      ensures Valid() && !committing && outstanding == old(outstanding) - 1
      ensures outstanding > 0 ==> trace == old(trace) && Logged() == old(Logged()) && pinned == old(pinned)
      ensures outstanding == 0 ==>
                && n == 0 && pinned == old(pinned) - Members(old(Logged()))
                && trace == old(trace) + CommitWrites(L, old(disk[L.logstart]), old(Logged()), vals)
    {
      hide Apply;
      outstanding := outstanding - 1;
      if outstanding == 0 {
        committing := true;
        Commit(vals);
        committing := false;
      }
    }
  }

  lemma CopiedKept(L: Layout, d: Disk, head: Block)
    requires L.Valid() && |d| == L.size
    ensures forall vals: seq<Block> :: |vals| < L.nlog && Copied(L, d, vals, |vals|) ==>
              Copied(L, d[L.logstart := head], vals, |vals|)
  {
    assert forall i :: 0 <= i && 1 + i < L.nlog ==> Slot(L, d[L.logstart := head], i) == Slot(L, d, i);
  }

  function Members(s: seq<nat>): set<nat> {
    set i | 0 <= i < |s| :: s[i]
  }

  lemma CommitSegments(L: Layout, head: Block, lh: seq<nat>, vals: seq<Block>)
    requires |lh| <= LOGSIZE && |vals| == |lh|
    ensures lh == [] ==> CommitWrites(L, head, lh, vals) == [] && Members(lh) == {}
    ensures lh != [] ==>
              CommitWrites(L, head, lh, vals) ==
              Copies(L, vals) + [HeadWrite(L, head, lh)] + Installs(lh, vals) + [HeadWrite(L, EncodeHead(head, lh), [])]
  {
    hide EncodeHead;
  }

  /** The writes of write_log. */
  ghost function Copies(L: Layout, vals: seq<Block>): (ws: seq<DiskWrite>)
    ensures |ws| == |vals|
  {
    seq(|vals|, i requires 0 <= i < |vals| => DiskWrite(L.logstart + 1 + i, vals[i]))
  }

  /** The writes of install_trans. */
  ghost function Installs(lh: seq<nat>, vals: seq<Block>): (ws: seq<DiskWrite>)
    requires |lh| == |vals|
    ensures |ws| == |vals|
  {
    seq(|vals|, i requires 0 <= i < |vals| => DiskWrite(lh[i], vals[i]))
  }
}
