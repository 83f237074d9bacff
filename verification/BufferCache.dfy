/** kernel/bio.c: buffers on a circular doubly linked list in least-recently-used order.  Buffers are
    the indices 0 .. NBUF-1 and NBUF is the list head. */
module BufferCache {
  import opened Basics
  import opened LogDisk

  const NBUF: nat := MAXOPBLOCKS * 3

  // ---------------------------------------------------------------- doubly linked rings

  /** The i-th stop on the way from h along ring and back to h. */
  function At(h: nat, ring: seq<nat>, i: nat): nat
    requires i <= |ring| + 1
  {
    if 1 <= i <= |ring| then ring[i - 1] else h
  }

  ghost predicate Edge(next: seq<nat>, prev: seq<nat>, a: nat, b: nat) {
    a < |next| && b < |prev| && next[a] == b && prev[b] == a
  }

  /** Following next from h visits ring and returns to h; following prev visits it backwards. */
  ghost predicate Linked(next: seq<nat>, prev: seq<nat>, h: nat, ring: seq<nat>) {
    && |next| == |prev|
    && h < |next|
    && (forall i :: 0 <= i < |ring| ==> ring[i] < |next| && ring[i] != h)
    && NoDup(ring)
    && (forall i :: 0 <= i < |ring| + 1 ==> Edge(next, prev, At(h, ring, i), At(h, ring, i + 1)))
  }

  /** The two assignments that take b out. */
  lemma Unlink(next: seq<nat>, prev: seq<nat>, h: nat, ring: seq<nat>, k: nat)
    requires Linked(next, prev, h, ring) && k < |ring|
    ensures var b := ring[k];
            && b < |next| && next[b] < |prev| && prev[b] < |next| && next[b] != b
            && Linked(next[prev[b] := next[b]], prev[next[b] := prev[b]], h, Without(ring, k))
  {
    var b, rest := ring[k], Without(ring, k);
    assert Edge(next, prev, At(h, ring, k), At(h, ring, k + 1));
    assert Edge(next, prev, At(h, ring, k + 1), At(h, ring, k + 2));
    var next', prev' := next[prev[b] := next[b]], prev[next[b] := prev[b]];
    forall i | 0 <= i < |rest| + 1 ensures Edge(next', prev', At(h, rest, i), At(h, rest, i + 1)) {
      if i != k {
        var j := if i < k then i else i + 1;
        assert Edge(next, prev, At(h, ring, j), At(h, ring, j + 1));
      }
    }
  }

  /** The four assignments that put b right after the head. */
  lemma PushFront(next: seq<nat>, prev: seq<nat>, h: nat, ring: seq<nat>, b: nat)
    requires Linked(next, prev, h, ring) && b < |next| && b != h && b !in ring
    ensures next[h] < |prev|
    ensures Linked(next[b := next[h]][h := b], prev[b := h][next[h] := b], h, [b] + ring)
  {
    assert Edge(next, prev, At(h, ring, 0), At(h, ring, 1));
    var next', prev' := next[b := next[h]][h := b], prev[b := h][next[h] := b];
    var ring' := [b] + ring;
    forall i | 0 <= i < |ring'| + 1 ensures Edge(next', prev', At(h, ring', i), At(h, ring', i + 1)) {
      if i > 0 {
        assert Edge(next, prev, At(h, ring, i - 1), At(h, ring, i));
      }
    }
  }

  // ---------------------------------------------------------------- the cache

  datatype Buf = Buf(dev: nat, blockno: nat, valid: bool, refcnt: nat, data: Block) {
    predicate Holds(key: Key) {
      dev == key.0 && blockno == key.1
    }

    function Addr(): Key {
      (dev, blockno)
    }
  }

  type Key = (nat, nat)

  /** Real devices are not cached twice. */
  predicate Unique(bufs: seq<Buf>) {
    forall i, j :: 0 <= i < j < |bufs| && bufs[i].dev != 0 ==> !bufs[j].Holds(bufs[i].Addr())
  }

  /** The contents of block key: a valid buffer's, or else the disk's. */
  ghost function Contents(bufs: seq<Buf>, disk: map<Key, Block>, key: Key): Block
    requires key in disk
  {
    if i :| 0 <= i < |bufs| && bufs[i].valid && bufs[i].Holds(key) then bufs[i].data else disk[key]
  }

  /** The buffer holds nothing the disk does not. */
  ghost predicate InStep(buf: Buf, disk: map<Key, Block>) {
    buf.valid && buf.Addr() in disk ==> buf.data == disk[buf.Addr()]
  }

  /** Unreferenced buffers hold nothing the disk does not. */
  ghost predicate UnusedClean(bufs: seq<Buf>, disk: map<Key, Block>) {
    forall i :: 0 <= i < |bufs| && bufs[i].refcnt == 0 ==> InStep(bufs[i], disk)
  }

  /** Every block of a real device reads as before. */
  ghost predicate SameContents(was: seq<Buf>, now: seq<Buf>, disk: map<Key, Block>) {
    forall key :: key in disk && key.0 != 0 ==> Contents(now, disk, key) == Contents(was, disk, key)
  }

  class Cache {
    const next: array<nat>
    const prev: array<nat>
    const buf: array<Buf>
    var disk: map<Key, Block>
    ghost var ring: seq<nat>
    ghost var released: seq<nat>  // when brelse last moved each buffer to the front
    ghost var clock: nat

    ghost predicate Valid()
      reads this, next, prev, buf
    {
      && next != prev
      && buf.Length == NBUF && next.Length == prev.Length == NBUF + 1
      && Linked(next[..], prev[..], NBUF, ring)
      && (forall b :: 0 <= b < NBUF ==> b in ring)
      && |released| == NBUF
      && Recency(ring, released, clock)
      && Unique(buf[..])
    }

    method Bget(dev: nat, blockno: nat) returns (r: Option<nat>)
      requires Valid()
      modifies buf
      ensures Valid()
      ensures r.None? <==> NotHeld(old(buf[..]), (dev, blockno)) && AllBusy(old(buf[..]))
      ensures r.None? ==> buf[..] == old(buf[..])
      ensures r.Some? ==> r.value < NBUF && GotBuffer(old(buf[..]), buf[..], released, (dev, blockno), r.value)
    {
      hide Recency, Linked;
      ghost var was := buf[..];
      var b := next[NBUF];
      ghost var i := 0;
      EdgeAt(next[..], prev[..], NBUF, ring, 0);
      while b != NBUF
        invariant buf[..] == was
        invariant 0 <= i <= |ring| && b == At(NBUF, ring, i + 1) && b <= NBUF
        invariant forall j :: 0 <= j < i ==> ring[j] < NBUF && !was[ring[j]].Holds((dev, blockno))
        decreases |ring| - i
      {
        EdgeAt(next[..], prev[..], NBUF, ring, i + 1);
        if buf[b].dev == dev && buf[b].blockno == blockno {
          buf[b] := buf[b].(refcnt := buf[b].refcnt + 1);
          assert buf[..] == was[b := was[b].(refcnt := was[b].refcnt + 1)];
          UniqueKept(was, b, was[b].refcnt + 1);
          return Some(b);
        }
        b := next[b];
        i := i + 1;
      }
      if i < |ring| { EdgeAt(next[..], prev[..], NBUF, ring, i + 1); }
      NoneHeld(ring, was, (dev, blockno));
      r := Recycle(dev, blockno);
    }

    /** The second scan of bget, from the least recently used end. */
    method Recycle(dev: nat, blockno: nat) returns (r: Option<nat>)
      requires Valid() && NotHeld(buf[..], (dev, blockno))
      modifies buf
      ensures Valid()
      ensures r.None? <==> AllBusy(old(buf[..]))
      ensures r.None? ==> buf[..] == old(buf[..])
      ensures r.Some? ==> r.value < NBUF && Recycled(old(buf[..]), buf[..], released, (dev, blockno), r.value)
    {
      hide Recency, Linked;
      ghost var was := buf[..];
      var b := prev[NBUF];
      ghost var i := |ring|;
      EdgeAt(next[..], prev[..], NBUF, ring, i);
      while b != NBUF
        invariant buf[..] == was
        invariant 0 <= i <= |ring| && b == At(NBUF, ring, i) && b <= NBUF
        invariant forall j :: i <= j < |ring| ==> ring[j] < NBUF && was[ring[j]].refcnt > 0
        decreases i
      {
        EdgeAt(next[..], prev[..], NBUF, ring, i - 1);
        if buf[b].refcnt == 0 {
          OldestFound(ring, was, released, clock, i - 1);
          UniqueRecycled(was, b, dev, blockno);
          buf[b] := Buf(dev, blockno, false, 1, buf[b].data);
          assert buf[..] == was[b := Buf(dev, blockno, false, 1, was[b].data)];
          return Some(b);
        }
        b := prev[b];
        i := i - 1;
      }
      EdgeAt(next[..], prev[..], NBUF, ring, i);
      NoneIdle(ring, was);
      r := None;
    }

    /** bread: a referenced buffer whose data are those of the block. */
    method Bread(dev: nat, blockno: nat) returns (r: Option<nat>)
      requires Valid() && (dev, blockno) in disk
      modifies buf
      ensures Valid()
      ensures r.None? <==> NotHeld(old(buf[..]), (dev, blockno)) && AllBusy(old(buf[..]))
      ensures r.None? ==> buf[..] == old(buf[..])
      ensures r.Some? ==>
                && r.value < NBUF && buf[r.value].Holds((dev, blockno)) && buf[r.value].valid && buf[r.value].refcnt > 0
                && (dev != 0 ==> buf[r.value].data == Contents(old(buf[..]), disk, (dev, blockno)))
      ensures old(UnusedClean(buf[..], disk)) ==> UnusedClean(buf[..], disk)
      ensures old(UnusedClean(buf[..], disk)) && dev != 0 ==> SameContents(old(buf[..]), buf[..], disk)
    {
      ghost var was := buf[..];
      r := Bget(dev, blockno);
      if r.Some? {
        var b := r.value;
        ghost var got := buf[..];
        if !buf[b].valid {
          buf[b] := buf[b].(valid := true, data := disk[(dev, blockno)]);
        }
        assert buf[..] == Filled(got, disk, b);
        ReadContents(was, got, released, disk, (dev, blockno), b);
      }
    }

    /** bwrite: from now on the disk alone has the block as readers of the cache see it, and every block still reads
        as before. */
    method Bwrite(b: nat)
      requires Valid() && b < NBUF && buf[b].refcnt > 0
      modifies this`disk
      ensures Valid() && disk == old(disk)[buf[b].Addr() := buf[b].data]
      ensures buf[b].valid && buf[b].dev != 0 ==> disk[buf[b].Addr()] == Contents(buf[..], disk, buf[b].Addr())
      ensures buf[b].valid && buf[b].dev != 0 ==>
                forall key :: key in old(disk) && key.0 != 0 ==>
                  Contents(buf[..], disk, key) == Contents(buf[..], old(disk), key)
      ensures buf[b].dev != 0 && UnusedClean(buf[..], old(disk)) ==> UnusedClean(buf[..], disk)
    {
      ghost var disk0 := disk;
      disk := disk[buf[b].Addr() := buf[b].data];
      if buf[b].valid && buf[b].dev != 0 {
        ContentsOf(buf[..], disk, buf[b].Addr(), b);
        forall key | key in disk0 && key.0 != 0 ensures Contents(buf[..], disk, key) == Contents(buf[..], disk0, key) {
          WriteOther(buf[..], disk0, b, key);
        }
      }
    }

    /** The pointer surgery of brelse: take b out, then put it right after the head. */
    method MoveToFront(b: nat)
      requires Valid() && b < NBUF
      modifies next, prev, this`ring, this`released, this`clock
      ensures Valid() && Moved(old(ring), ring, b)
    {
      hide Linked, Unique, Recency;
      assert b in ring;
      ghost var k :| 0 <= k < |ring| && ring[k] == b;
      ghost var rest := Without(ring, k);
      ghost var next0: seq<nat>, prev0: seq<nat> := next[..], prev[..];
      Unlink(next0, prev0, NBUF, ring, k);
      prev[next[b]] := prev[b];
      next[prev[b]] := next[b];
      ghost var next1: seq<nat>, prev1: seq<nat> := next[..], prev[..];
      assert next1 == next0[prev0[b] := next0[b]] && prev1 == prev0[next0[b] := prev0[b]];
      RingNoDup(next0, prev0, NBUF, ring);
      RecencyMoved(ring, released, clock, k);
      PushFront(next1, prev1, NBUF, rest, b);
      next[b] := next[NBUF];
      prev[b] := NBUF;
      prev[next[NBUF]] := b;
      next[NBUF] := b;
      assert next[..] == next1[b := next1[NBUF]][NBUF := b] && prev[..] == prev1[b := NBUF][next1[NBUF] := b];
      ring, released, clock := [b] + rest, released[b := clock], clock + 1;
    }

    /** brelse: one reference less; with the last one gone the buffer moves to the front of the ring. */
    method Brelse(b: nat)
      requires Valid() && b < NBUF && buf[b].refcnt > 0
      modifies buf, next, prev, this`ring, this`released, this`clock
      ensures Valid()
      ensures buf[..] == old(buf[..])[b := old(buf[b]).(refcnt := old(buf[b]).refcnt - 1)]
      ensures if buf[b].refcnt == 0 then Moved(old(ring), ring, b) else ring == old(ring)
      ensures SameContents(old(buf[..]), buf[..], disk)
      ensures old(UnusedClean(buf[..], disk)) ==>
                (UnusedClean(buf[..], disk) <==> buf[b].refcnt > 0 || InStep(buf[b], disk))
    {
      Bunpin(b);
      if buf[b].refcnt == 0 {
        MoveToFront(b);
      }
    }

    method Bpin(b: nat)
      requires Valid() && b < NBUF
      modifies buf
      ensures Valid()
      ensures buf[..] == old(buf[..])[b := old(buf[b]).(refcnt := old(buf[b]).refcnt + 1)]
      ensures SameContents(old(buf[..]), buf[..], disk)
      ensures old(UnusedClean(buf[..], disk)) ==> UnusedClean(buf[..], disk)
    {
      RecountContents(buf[..], disk, b, buf[b].refcnt + 1);
      UniqueKept(buf[..], b, buf[b].refcnt + 1);
      buf[b] := buf[b].(refcnt := buf[b].refcnt + 1);
      assert buf[..] == old(buf[..])[b := old(buf[b]).(refcnt := old(buf[b]).refcnt + 1)];
    }

    method Bunpin(b: nat)
      requires Valid() && b < NBUF && buf[b].refcnt > 0
      modifies buf
      ensures Valid()
      ensures buf[..] == old(buf[..])[b := old(buf[b]).(refcnt := old(buf[b]).refcnt - 1)]
      ensures SameContents(old(buf[..]), buf[..], disk)
      ensures old(UnusedClean(buf[..], disk)) ==>
                (UnusedClean(buf[..], disk) <==> buf[b].refcnt > 0 || InStep(buf[b], disk))
    {
      RecountContents(buf[..], disk, b, buf[b].refcnt - 1);
      UniqueKept(buf[..], b, buf[b].refcnt - 1);
      buf[b] := buf[b].(refcnt := buf[b].refcnt - 1);
      assert buf[..] == old(buf[..])[b := old(buf[b]).(refcnt := old(buf[b]).refcnt - 1)];
    }

    /** binit: all buffers idle, pushed to the front one by one. */
    constructor (disk: map<Key, Block>)
      ensures Valid() && this.disk == disk && fresh(next) && fresh(prev) && fresh(buf)
      ensures forall b :: 0 <= b < NBUF ==> buf[b] == Buf(0, 0, false, 0, Blank)
    {
      this.disk := disk;
      next := new nat[NBUF + 1](_ => NBUF);
      prev := new nat[NBUF + 1](_ => NBUF);
      buf := new Buf[NBUF](_ => Buf(0, 0, false, 0, Blank));
      ring, released, clock := [], seq(NBUF, i => i), NBUF;
      new;
      var b := 0;
      while b < NBUF
        invariant 0 <= b <= NBUF
        invariant fresh(next) && fresh(prev) && fresh(buf) && next != prev
        invariant released == seq(NBUF, i => i) && clock == NBUF && this.disk == disk
        invariant forall c :: 0 <= c < NBUF ==> buf[c] == Buf(0, 0, false, 0, Blank)
        invariant |ring| == b && forall i :: 0 <= i < b ==> ring[i] == b - 1 - i
        invariant Linked(next[..], prev[..], NBUF, ring)
      {
        ghost var next0: seq<nat>, prev0: seq<nat> := next[..], prev[..];
        PushFront(next0, prev0, NBUF, ring, b);
        next[b] := next[NBUF];
        prev[b] := NBUF;
        prev[next[NBUF]] := b;
        next[NBUF] := b;
        assert next[..] == next0[b := next0[NBUF]][NBUF := b] && prev[..] == prev0[b := NBUF][next0[NBUF] := b];
        ring := [b] + ring;
        b := b + 1;
      }
      forall c | 0 <= c < NBUF ensures c in ring {
        assert ring[NBUF - 1 - c] == c;
      }
    }
  }

  /** b went to the front, the others kept their order. */
  ghost predicate Moved(was: seq<nat>, now: seq<nat>, b: nat) {
    exists k :: 0 <= k < |was| && was[k] == b && now == [b] + Without(was, k)
  }

  /** got, with buffer b read from disk if it was not valid. */
  ghost function Filled(got: seq<Buf>, disk: map<Key, Block>, b: nat): seq<Buf>
    requires b < |got| && got[b].Addr() in disk
  {
    if got[b].valid then got else got[b := got[b].(valid := true, data := disk[got[b].Addr()])]
  }

  lemma ContentsOf(bufs: seq<Buf>, disk: map<Key, Block>, key: Key, i: nat)
    requires Unique(bufs) && key in disk && key.0 != 0 && i < |bufs| && bufs[i].valid && bufs[i].Holds(key)
    ensures Contents(bufs, disk, key) == bufs[i].data
  {
  }

  /** Counting references changes no contents. */
  lemma RecountContents(bufs: seq<Buf>, disk: map<Key, Block>, b: nat, refcnt: nat)
    requires Unique(bufs) && b < |bufs|
    ensures SameContents(bufs, bufs[b := bufs[b].(refcnt := refcnt)], disk)
  {
    var now := bufs[b := bufs[b].(refcnt := refcnt)];
    UniqueKept(bufs, b, refcnt);
    forall key | key in disk && key.0 != 0 ensures Contents(now, disk, key) == Contents(bufs, disk, key) {
      if i :| 0 <= i < |bufs| && bufs[i].valid && bufs[i].Holds(key) {
        ContentsOf(bufs, disk, key, i);
        ContentsOf(now, disk, key, i);
      } else {
        assert forall i :: 0 <= i < |now| ==> now[i].valid == bufs[i].valid && now[i].Addr() == bufs[i].Addr();
      }
    }
  }

  lemma WriteOther(bufs: seq<Buf>, disk: map<Key, Block>, b: nat, key: Key)
    requires Unique(bufs) && b < |bufs| && bufs[b].valid && bufs[b].dev != 0 && key in disk && key.0 != 0
    ensures Contents(bufs, disk[bufs[b].Addr() := bufs[b].data], key) == Contents(bufs, disk, key)
  {
    if i :| 0 <= i < |bufs| && bufs[i].valid && bufs[i].Holds(key) {
      ContentsOf(bufs, disk, key, i);
      ContentsOf(bufs, disk[bufs[b].Addr() := bufs[b].data], key, i);
    }
  }

  lemma ReadContents(was: seq<Buf>, got: seq<Buf>, released: seq<nat>, disk: map<Key, Block>, key: Key, b: nat)
    requires key in disk && Unique(was) && Unique(got) && GotBuffer(was, got, released, key, b)
    ensures |got| == |was| && got[b].Addr() == key
    ensures key.0 != 0 ==> Filled(got, disk, b)[b].data == Contents(was, disk, key)
    ensures UnusedClean(was, disk) ==> UnusedClean(Filled(got, disk, b), disk)
    ensures UnusedClean(was, disk) && key.0 != 0 ==> SameContents(was, Filled(got, disk, b), disk)
  {
    if i :| 0 <= i < |was| && was[i].valid && was[i].Holds(key) && key.0 != 0 {
      ContentsOf(was, disk, key, i);
    }
    if UnusedClean(was, disk) && key.0 != 0 {
      forall k | k in disk && k.0 != 0 ensures Contents(Filled(got, disk, b), disk, k) == Contents(was, disk, k) {
        ReadOther(was, got, released, disk, key, b, k);
      }
    }
  }

  lemma ReadOther(was: seq<Buf>, got: seq<Buf>, released: seq<nat>, disk: map<Key, Block>, key: Key, b: nat, k: Key)
    requires key in disk && key.0 != 0 && Unique(was) && Unique(got) && GotBuffer(was, got, released, key, b)
    requires UnusedClean(was, disk) && k in disk && k.0 != 0
    ensures |got| == |was| && got[b].Addr() == key
    ensures Contents(Filled(got, disk, b), disk, k) == Contents(was, disk, k)
  {
    var now := Filled(got, disk, b);
    assert Unique(now);
    if k == key {
      ContentsOf(now, disk, k, b);
      if i :| 0 <= i < |was| && was[i].valid && was[i].Holds(k) {
        ContentsOf(was, disk, k, i);
      }
    } else if i :| 0 <= i < |was| && was[i].valid && was[i].Holds(k) {
      ContentsOf(was, disk, k, i);
      if i != b {
        ContentsOf(now, disk, k, i);
      }
    }
  }

  lemma RingNoDup(next: seq<nat>, prev: seq<nat>, h: nat, ring: seq<nat>)
    requires Linked(next, prev, h, ring)
    ensures NoDup(ring)
  {
  }

  lemma RecencyMoved(ring: seq<nat>, released: seq<nat>, clock: nat, k: nat)
    requires Recency(ring, released, clock) && NoDup(ring) && k < |ring|
    ensures Recency([ring[k]] + Without(ring, k), released[ring[k] := clock], clock + 1)
    ensures forall b :: b in ring ==> b in [ring[k]] + Without(ring, k)
    ensures ring[k] !in Without(ring, k)
  {
  }

  lemma EdgeAt(next: seq<nat>, prev: seq<nat>, h: nat, ring: seq<nat>, i: nat)
    requires Linked(next, prev, h, ring) && i < |ring| + 1
    ensures Edge(next, prev, At(h, ring, i), At(h, ring, i + 1))
    ensures At(h, ring, i) == h <==> i == 0
  {
  }

  lemma UniqueKept(bufs: seq<Buf>, b: nat, refcnt: nat)
    requires Unique(bufs) && b < |bufs|
    ensures Unique(bufs[b := bufs[b].(refcnt := refcnt)])
  {
  }

  lemma UniqueRecycled(bufs: seq<Buf>, b: nat, dev: nat, blockno: nat)
    requires Unique(bufs) && b < |bufs| && NotHeld(bufs, (dev, blockno))
    ensures Unique(bufs[b := Buf(dev, blockno, false, 1, bufs[b].data)])
  {
  }

  lemma NoneHeld(ring: seq<nat>, bufs: seq<Buf>, key: Key)
    requires forall j :: 0 <= j < |ring| ==> ring[j] < |bufs| && !bufs[ring[j]].Holds(key)
    requires forall b :: 0 <= b < |bufs| ==> b in ring
    ensures NotHeld(bufs, key)
  {
    assert forall b :: 0 <= b < |bufs| ==> b in ring && !bufs[b].Holds(key);
  }

  lemma NoneIdle(ring: seq<nat>, bufs: seq<Buf>)
    requires forall j :: 0 <= j < |ring| ==> ring[j] < |bufs| && bufs[ring[j]].refcnt > 0
    requires forall b :: 0 <= b < |bufs| ==> b in ring
    ensures AllBusy(bufs)
  {
    assert forall b :: 0 <= b < |bufs| ==> b in ring && bufs[b].refcnt > 0;
  }

  lemma OldestFound(ring: seq<nat>, bufs: seq<Buf>, released: seq<nat>, clock: nat, k: nat)
    requires Recency(ring, released, clock) && |bufs| == |released| && k < |ring|
    requires forall b :: 0 <= b < |bufs| ==> b in ring
    requires bufs[ring[k]].refcnt == 0 && forall j :: k < j < |ring| ==> bufs[ring[j]].refcnt > 0
    ensures OldestUnused(bufs, released, ring[k])
  {
    forall c | 0 <= c < |bufs| && bufs[c].refcnt == 0 ensures released[ring[k]] <= released[c] {
      assert c in ring;
      var j :| 0 <= j < |ring| && ring[j] == c;
    }
  }

  /** ring lists the buffers from the most to the least recently released. */
  ghost predicate Recency(ring: seq<nat>, released: seq<nat>, clock: nat) {
    && (forall i :: 0 <= i < |ring| ==> ring[i] < |released| && released[ring[i]] < clock)
    && (forall i, j :: 0 <= i < j < |ring| ==> released[ring[i]] > released[ring[j]])
  }

  predicate NotHeld(bufs: seq<Buf>, key: Key) {
    forall i :: 0 <= i < |bufs| ==> !bufs[i].Holds(key)
  }

  predicate AllBusy(bufs: seq<Buf>) {
    forall i :: 0 <= i < |bufs| ==> bufs[i].refcnt > 0
  }

  ghost predicate OldestUnused(bufs: seq<Buf>, released: seq<nat>, b: nat) {
    && b < |bufs| <= |released| && bufs[b].refcnt == 0
    && forall c :: 0 <= c < |bufs| && bufs[c].refcnt == 0 ==> released[b] <= released[c]
  }

  /** b was the least recently used idle buffer and now stands for key, not yet read. */
  ghost predicate Recycled(was: seq<Buf>, now: seq<Buf>, released: seq<nat>, key: Key, b: nat) {
    && OldestUnused(was, released, b)
    && |now| == |was|
    && now == was[b := now[b]]
    && now[b].Holds(key) && !now[b].valid && now[b].refcnt == 1
  }

  /** What bget promises: the buffer that held key, referenced once more, or a recycled one. */
  ghost predicate GotBuffer(was: seq<Buf>, now: seq<Buf>, released: seq<nat>, key: Key, b: nat) {
    && b < |was|
    && if was[b].Holds(key) then now == was[b := was[b].(refcnt := was[b].refcnt + 1)]
       else Recycled(was, now, released, key, b) && NotHeld(was, key)
  }
}
