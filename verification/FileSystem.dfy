/** balloc, bfree, bmap, itrunc, readi, writei and iupdate of fs.c, and the chunk loop of filewrite in
    file.c, on one mounted file system. */
module FileSystem {
  import opened Basics
  import opened FsImage

  const BPB: nat := BSIZE * 8
  const IPB: nat := 16

  class Fs {
    const meta: nat        // first data block
    const bmapstart: nat
    const inodestart: nat
    var img: Img           // cached blocks and in-memory inodes
    var dino: seq<Inode>   // inodes as last written by iupdate
    ghost var owner: map<nat, Owner>
    ghost var logged: set<nat>  // blocks handed to log_write in this transaction

    ghost predicate Valid()
      reads this
    {
      Consistent(img, meta, owner) && |dino| == |img.ino|
    }

    /** The bitmap block with the bit of block b. */
    function BBlock(b: nat): (r: nat)
      ensures bmapstart <= r && (r - bmapstart) * BPB <= b < (r - bmapstart + 1) * BPB
    {
      b / BPB + bmapstart
    }

    /** The block with inode i. */
    function IBlock(i: nat): (r: nat)
      ensures inodestart <= r && (r - inodestart) * IPB <= i < (r - inodestart + 1) * IPB
    {
      i / IPB + inodestart
    }

    /** Every block that changed from was to now, bitmap blocks included, was handed to log_write; `torn` may be an
        exception. */
    ghost predicate Recorded(was: Img, now: Img, logs: set<nat>, torn: set<nat>) {
      && |was.data| == |now.data| && |was.bitmap| == |now.bitmap|
      && (forall b :: 0 <= b < |was.data| && now.data[b] != was.data[b] ==> b in logs || b in torn)
      && (forall b :: 0 <= b < |was.bitmap| && now.bitmap[b] != was.bitmap[b] ==> BBlock(b) in logs)
    }

    lemma RecordedTwice(a: Img, b: Img, c: Img, logs: set<nat>, logs': set<nat>, torn: set<nat>)
      requires Recorded(a, b, logs, {}) && Recorded(b, c, logs', torn) && logs <= logs'
      ensures Recorded(a, c, logs', torn)
    {
      hide BBlock;
    }

    lemma RecordedSelf(a: Img, logs: set<nat>)
      ensures Recorded(a, a, logs, {})
    {
    }

    lemma RecordedFree(was: Img, now: Img, logs: set<nat>, b: nat)
      requires Recorded(was, now, logs, {}) && b < |now.bitmap|
      ensures Recorded(was, now.(bitmap := now.bitmap[b := false]), logs + {BBlock(b)}, {})
    {
      hide BBlock;
    }

    /** Inodes do not matter. */
    lemma RecordedInodes(was: Img, now: Img, now': Img, logs: set<nat>, logs': set<nat>, torn: set<nat>)
      requires Recorded(was, now, logs, torn) && logs <= logs' && now'.data == now.data && now'.bitmap == now.bitmap
      ensures Recorded(was, now', logs', torn)
    {
      hide BBlock;
    }

    /** balloc: the lowest free block, marked and cleared; 0 when every block is marked. */
    method Balloc() returns (r: nat)
      requires |img.bitmap| == |img.data| > 0 && img.bitmap[0]
      modifies this`img, this`logged
      ensures r == 0 ==> img == old(img) && logged == old(logged) && Full(img.bitmap)
      ensures r != 0 ==>
                && r < |old(img).bitmap| && !old(img).bitmap[r] && Full(old(img).bitmap[..r])
                && img == old(img).(bitmap := old(img).bitmap[r := true], data := old(img).data[r := Zeros()])
                && logged == old(logged) + {BBlock(r), r}
    {
      var b := 0;
      while b < |img.bitmap|
        invariant 0 <= b && img == old(img) && logged == old(logged)
        invariant forall c :: 0 <= c < b && c < |img.bitmap| ==> img.bitmap[c]
      {
        var bi := 0;
        while bi < BPB && b + bi < |img.bitmap|
          invariant 0 <= bi <= BPB && img == old(img) && logged == old(logged)
          invariant forall c :: 0 <= c < b + bi && c < |img.bitmap| ==> img.bitmap[c]
        {
          if !img.bitmap[b + bi] {
            img := img.(bitmap := img.bitmap[b + bi := true]);
            logged := logged + {BBlock(b + bi)};
            img := img.(data := img.data[b + bi := Zeros()]);
            logged := logged + {b + bi};
            return b + bi;
          }
          bi := bi + 1;
        }
        b := b + BPB;
      }
      r := 0;
    }

    /** Store a freshly allocated block in slot j of inode i; 0 when the disk is full. */
    method AllocSlot(i: nat, j: nat) returns (b: nat)
      requires Valid() && i < |img.ino| && j < NSLOTS && SlotVal(img, i, j) == 0
      requires j > NDIRECT ==> img.ino[i].addrs[NDIRECT] != 0
      modifies this`img, this`owner, this`logged
      ensures Valid() && Extends(old(img), img)
      ensures b == 0 ==> img == old(img) && logged == old(logged) && Full(img.bitmap)
      ensures b != 0 ==> SlotVal(img, i, j) == b && |Free(img.bitmap)| == |Free(old(img).bitmap)| - 1
      ensures b != 0 ==>
                logged == old(logged) + {BBlock(b), b} + (if j > NDIRECT then {img.ino[i].addrs[NDIRECT]} else {})
      ensures Recorded(old(img), img, logged, {})
    {
      hide SlotVal, ByteAt, MappedUpTo, Free;
      b := Balloc();
      if b != 0 {
        assert CanAttach(old(img), i, j, b);
        FreeTaken(old(img).bitmap, b);
        AttachExtends(old(img), meta, owner, i, j, b);
        if j <= NDIRECT {
          img := img.(ino := img.ino[i := img.ino[i].(addrs := img.ino[i].addrs[j := b])]);
        } else {
          var ind := img.ino[i].addrs[NDIRECT];
          img := img.(data := img.data[ind := PutWord(img.data[ind], j - NDIRECT - 1, b)]);
          logged := logged + {ind};
        }
        assert img == Attach(old(img), i, j, b);
        owner := owner[b := Owner(i, j)];
      }
    }

    /** The block in slot j of inode i, allocated if there is none; 0 when the disk is full.  bits is
        the bitmap block logged on the way. */
    method EnsureSlot(i: nat, j: nat) returns (addr: nat, ghost bits: set<nat>)
      requires Valid() && i < |img.ino| && j < NSLOTS
      requires j > NDIRECT ==> img.ino[i].addrs[NDIRECT] != 0
      modifies this`img, this`owner, this`logged
      ensures Valid() && Extends(old(img), img) && addr == SlotVal(img, i, j)
      ensures SlotVal(old(img), i, j) != 0 ==> img == old(img) && logged == old(logged) && owner == old(owner)
      ensures addr == 0 ==> img == old(img) && Full(img.bitmap)
      ensures logged <= old(logged) + bits + NonZero(addr) + (if j > NDIRECT then NonZero(img.ino[i].addrs[NDIRECT]) else {})
      ensures |bits| <= Fresh(SlotVal(old(img), i, j), addr)
      ensures |Free(img.bitmap)| == |Free(old(img).bitmap)| - Fresh(SlotVal(old(img), i, j), addr)
      ensures old(logged) <= logged && Recorded(old(img), img, logged, {})
    {
      hide ByteAt, Mapped, SlotVal, Extends, Owned, Free, Recorded;
      RecordedSelf(img, logged);
      addr := SlotVal(img, i, j);
      bits := {};
      ExtendsSelf(img);
      if addr == 0 {
        addr := AllocSlot(i, j);
        if addr != 0 {
          bits := {BBlock(addr)};
          IndirectSlot(img, i);
          IndirectSlot(old(img), i);
          ExtendsSlot(old(img), img, i, NDIRECT);
        }
      }
    }

    /** The disk block of file block bn of inode i, allocated if there is none, after its indirect block
        if it needs one; 0 when the disk is full. */
    method Bmap(i: nat, bn: nat) returns (addr: nat, ghost bits: set<nat>)
      requires Valid() && i < |img.ino| && bn < MAXFILE
      modifies this`img, this`owner, this`logged
      ensures Valid() && Extends(old(img), img) && addr == SlotVal(img, i, SlotOf(bn))
      ensures SlotVal(old(img), i, SlotOf(bn)) != 0 ==> img == old(img) && logged == old(logged) && owner == old(owner)
      ensures addr == 0 ==> Full(img.bitmap)
      ensures logged <= old(logged) + bits + NonZero(addr) + NonZero(SlotVal(img, i, NDIRECT))
      ensures |bits| <= Fresh(SlotVal(old(img), i, SlotOf(bn)), addr)
                        + Fresh(SlotVal(old(img), i, NDIRECT), SlotVal(img, i, NDIRECT))
      ensures |Free(img.bitmap)| >= |Free(old(img).bitmap)| - Fresh(SlotVal(old(img), i, SlotOf(bn)), addr)
                                    - Fresh(SlotVal(old(img), i, NDIRECT), SlotVal(img, i, NDIRECT))
      ensures old(logged) <= logged && Recorded(old(img), img, logged, {})
    {
      hide ByteAt, Mapped, SlotVal, Extends, Owned, Free, Recorded;
      IndirectSlot(img, i);
      if bn < NDIRECT {
        addr, bits := EnsureSlot(i, bn);
        return;
      }
      var ind;
      ind, bits := EnsureSlot(i, NDIRECT);
      IndirectSlot(img, i);
      ghost var mid, logs := img, logged;
      if ind == 0 {
        return 0, {};
      }
      ghost var more;
      addr, more := EnsureSlot(i, bn + 1);
      IndirectSlot(img, i);
      ExtendsSlot(mid, img, i, NDIRECT);
      ExtendsSlot(old(img), mid, i, bn + 1);
      ExtendsTwice(old(img), mid, img);
      RecordedTwice(old(img), mid, img, logs, logged, {});
      bits := bits + more;
    }

    /** iupdate: the inode block takes over the fields of inode i. */
    method Iupdate(i: nat)
      requires Valid() && i < |img.ino|
      modifies this`dino, this`logged
      ensures Valid() && dino == old(dino)[i := img.ino[i]] && logged == old(logged) + {IBlock(i)}
    {
      dino := dino[i := img.ino[i]];
      logged := logged + {IBlock(i)};
    }

    /** One round of writei's loop: m bytes, all inside one block; 0 when the disk is full or copyin fails.  A copyin
        that fails has stored the `extra` bytes it could reach in the cached block, which is then not logged. */
    method WriteRound(i: nat, off: nat, src: seq<Byte>, tot: nat, copyable: nat, ghost img0: Img)
      returns (m: nat, addr: nat, ghost bits: set<nat>, ghost extra: nat, ghost torn: set<nat>)
      requires Valid() && tot < |src| && Written(img0, img, i, off, src, tot)
      modifies this`img, this`owner, this`logged
      ensures Valid() && tot + m + extra <= |src| && Written(img0, img, i, off, src, tot + m + extra)
      ensures m == 0 || m == Piece(off + tot, |src| - tot)
      ensures m == 0 ==>
                || (Full(img.bitmap) && extra == 0)
                || (copyable < tot + Piece(off + tot, |src| - tot) && tot + extra == Max(tot, copyable))
      ensures m > 0 ==> extra == 0 && tot + m <= copyable
      ensures |Free(img.bitmap)| >= |Free(old(img).bitmap)| - 1
                                    - Fresh(SlotVal(old(img), i, NDIRECT), SlotVal(img, i, NDIRECT))
      ensures logged <= old(logged) + bits + NonZero(addr) + NonZero(SlotVal(img, i, NDIRECT))
      ensures |bits| <= Fresh(SlotVal(old(img), i, SlotOf((off + tot) / BSIZE)), addr)
                        + Fresh(SlotVal(old(img), i, NDIRECT), SlotVal(img, i, NDIRECT))
      ensures SlotVal(old(img), i, NDIRECT) != 0 ==> SlotVal(img, i, NDIRECT) == SlotVal(old(img), i, NDIRECT)
      ensures old(logged) <= logged && Recorded(old(img), img, logged, torn) && torn == if extra > 0 then {addr} else {}
    {
      hide ByteAt, Mapped, SlotVal, Extends, Owned, Written, Put, Free, Recorded;
      torn := {};
      WrittenBounds(img0, img, i, off, src, tot);
      ghost var was := img;
      addr, bits := Bmap(i, (off + tot) / BSIZE);
      WrittenExtends(img0, was, img, meta, old(owner), i, off, src, tot);
      ExtendsSlot(was, img, i, NDIRECT);
      m, extra := Piece(off + tot, |src| - tot), 0;
      if addr == 0 {
        m := 0;
        return;
      }
      if copyable < tot + m {
        m := 0;
        if tot < copyable {
          extra := copyable - tot;
          WrittenPut(img0, img, meta, owner, i, off, src, tot, copyable - tot, addr);
          PutIndirect(img, meta, owner, addr, (off + tot) % BSIZE, src[tot..copyable], i, SlotOf((off + tot) / BSIZE));
          torn := {addr};
          RecordedPut(was, img, logged, addr, (off + tot) % BSIZE, src[tot..copyable]);
          img := Put(img, addr, (off + tot) % BSIZE, src[tot..copyable]);
        }
        return;
      }
      WrittenPut(img0, img, meta, owner, i, off, src, tot, m, addr);
      PutIndirect(img, meta, owner, addr, (off + tot) % BSIZE, src[tot..tot + m], i, SlotOf((off + tot) / BSIZE));
      RecordedPut(was, img, logged, addr, (off + tot) % BSIZE, src[tot..tot + m]);
      logged := logged + {addr};
      img := Put(img, addr, (off + tot) % BSIZE, src[tot..tot + m]);
    }

    lemma RecordedPut(was: Img, now: Img, logs: set<nat>, b: nat, o: nat, bytes: seq<Byte>)
      requires Recorded(was, now, logs, {}) && b < |now.data| && o + |bytes| <= BSIZE
      ensures Recorded(was, Put(now, b, o, bytes), logs, {b}) && Recorded(was, Put(now, b, o, bytes), logs + {b}, {})
    {
      hide BBlock;
    }

    /** The loop of writei.  stored counts the bytes that reached the cache, logged or not; data and bits are the
        data and bitmap blocks it logged. */
    method WriteBlocks(i: nat, off: nat, src: seq<Byte>, copyable: nat) returns (tot: nat, ghost stored: nat,
                       ghost data: set<nat>, ghost bits: set<nat>, ghost torn: set<nat>)
      requires Valid() && i < |img.ino| && off <= img.ino[i].size && off + |src| <= MAXFILE * BSIZE
      modifies this`img, this`owner, this`logged
      ensures Valid() && tot <= stored && Written(old(img), img, i, off, src, stored)
      ensures StoredAs(img.bitmap, off, |src|, tot, stored, copyable)
      ensures |Free(img.bitmap)| + Spanned(off, |src|) + 1 >= |Free(old(img).bitmap)|
      ensures |img.ino| == |old(img).ino|
      ensures logged <= old(logged) + data + bits + NonZero(SlotVal(img, i, NDIRECT))
      ensures |src| <= 3 * BSIZE ==> |data| + |bits| <= 8
      ensures Recorded(old(img), img, logged, torn) && |torn| <= 1 && (stored == tot ==> torn == {})
    {
      hide ByteAt, SlotVal, Extends, Owned, Written, MappedUpTo, Free, Spanned, Piece, Tracked, StoredAs,
        Recorded;
      ghost var img0, ind0 := img, SlotVal(img, i, NDIRECT);
      ghost var rounds := 0;
      data, bits, tot, stored, torn := {}, {}, 0, 0, {};
      RecordedSelf(img, logged);
      WrittenNothing(img, meta, owner, i, off, src);
      TrackedStart(logged, off, |src|, copyable, |Free(img.bitmap)|, ind0);
      while tot < |src|
        invariant Valid() && |img.ino| == |img0.ino| && 0 <= tot <= |src| && Written(img0, img, i, off, src, tot)
        invariant stored == tot && torn == {} && Recorded(img0, img, logged, {})
        invariant Tracked(old(logged), logged, data, bits, off, |src|, copyable, tot, rounds, |Free(img0.bitmap)|,
                          |Free(img.bitmap)|, ind0, SlotVal(img, i, NDIRECT))
      {
        FirstRoundMapped(img0, img, i, off, src, tot);
        ghost var ind, was, slot := SlotVal(img, i, NDIRECT), logged, SlotVal(img, i, SlotOf((off + tot) / BSIZE));
        ghost var free, before := |Free(img.bitmap)|, img;
        var m, addr;
        ghost var more, extra;
        m, addr, more, extra, torn := WriteRound(i, off, src, tot, copyable, img0);
        RecordedTwice(img0, before, img, was, logged, torn);
        TrackedNext(old(logged), was, logged, data, bits, off, |src|, copyable, tot, rounds, |Free(img0.bitmap)|, free,
                    |Free(img.bitmap)|, ind0, ind, SlotVal(img, i, NDIRECT), m, extra, img.bitmap, slot, addr, more);
        data, bits, rounds := data + NonZero(addr), bits + more, rounds + 1;
        stored := tot + m + extra;
        if m == 0 {
          return;
        }
        tot := tot + m;
      }
      TrackedEnd(old(logged), logged, data, bits, off, |src|, copyable, rounds, |Free(img0.bitmap)|, |Free(img.bitmap)|,
                 ind0, SlotVal(img, i, NDIRECT), img.bitmap);
    }

    /** writei: the bytes written, or -1 for bad arguments.  copyable is how much of src the caller's memory can
        supply.  The file takes over the bytes written; when copyin fails in the middle of a piece, the cached file
        also shows the bytes it reached inside the old size, though no block of them is logged.  A transaction that
        writes at most three blocks' worth of bytes logs at most MAXOPBLOCKS blocks, and every block it changes is
        among those logged, except the one with the bytes of a failed copyin.  With enough free blocks the
        arguments alone decide how far it comes and whether the file ends up with just the bytes written. */
    method Writei(i: nat, off: nat, src: seq<Byte>, copyable: nat) returns (tot: int, ghost stored: nat, ghost torn: set<nat>)
      requires Valid() && i < |img.ino| && off < 0x1_0000_0000 && |src| < 0x1_0000_0000
      modifies this`img, this`dino, this`owner, this`logged
      ensures Valid() && SameOthers(old(img), img, i)
      ensures img.ino[i].size <= MAXFILE * BSIZE && old(img).ino[i].size <= MAXFILE * BSIZE
      ensures tot == -1 <==> off > old(img).ino[i].size || off + |src| > MAXFILE * BSIZE
      ensures tot == -1 ==> img == old(img) && dino == old(dino) && logged == old(logged)
      ensures tot != -1 ==>
                && 0 <= tot <= stored <= |src| && StoredAs(img.bitmap, off, |src|, tot, stored, copyable)
                && Shown(Content(old(img), i), Content(img, i), off, src, tot, stored)
                && dino == old(dino)[i := img.ino[i]]
      ensures tot != -1 && |Free(old(img).bitmap)| > Spanned(off, |src|) + 1 ==>
                && tot == Copied(off, |src|, copyable) && stored == Min(copyable, |src|)
                && (Content(img, i) == Overlay(Content(old(img), i), off, src[..tot]) <==>
                    Unspoilt(Content(old(img), i), off, src, copyable))
      ensures |Free(img.bitmap)| + Spanned(off, |src|) + 1 >= |Free(old(img).bitmap)|
      ensures |src| <= 3 * BSIZE ==> |logged| <= |old(logged)| + MAXOPBLOCKS
      ensures Recorded(old(img), img, logged, torn) && |torn| <= 1 && (stored == tot ==> torn == {})
      ensures dino != old(dino) ==> IBlock(i) in logged
    {
      hide ByteAt, SlotVal, Owned, Written, Mapped, Free, Copied, Spanned, Unspoilt, Content, Overlay, Shown, SameOthers,
        StoredAs, Recorded;
      torn := {};
      RecordedSelf(img, logged);
      SizeBound(img, i);
      SameOthersSelf(img, i);
      if off > img.ino[i].size || (off + |src|) % 0x1_0000_0000 < off {
        return -1, 0, {};
      }
      if off + |src| > MAXFILE * BSIZE {
        return -1, 0, {};
      }
      ghost var img0 := img;
      ghost var data, bits;
      tot, stored, data, bits, torn := WriteBlocks(i, off, src, copyable);
      WrittenSizes(img0, img, i, off, src, stored);
      WrittenDone(img0, img, meta, owner, i, off, src, tot, stored);
      IndirectSlot(img, i);
      ghost var was := img;
      if off + tot > img.ino[i].size {
        img := Resize(img, i, off + tot);
      }
      assert img == Resize(was, i, Max(img0.ino[i].size, off + tot));
      IndirectSlot(img, i);
      RecordedInodes(old(img), was, img, logged, logged + {IBlock(i)}, torn);
      Iupdate(i);
      Tally(logged, old(logged), data, bits, NonZero(SlotVal(img, i, NDIRECT)), IBlock(i));
      RoomExact(Content(old(img), i), Content(img, i), img.bitmap, |Free(old(img).bitmap)|, off, src, tot, stored, copyable);
    }

    /** One round of readi's loop: m bytes inside one block. */
    method ReadPiece(i: nat, pos: nat, m: nat) returns (bytes: seq<Byte>)
      requires Valid() && i < |img.ino| && 0 < m && pos % BSIZE + m <= BSIZE && pos + m <= img.ino[i].size
      modifies this`img, this`owner, this`logged
      ensures Valid() && img == old(img) && owner == old(owner) && logged == old(logged)
      ensures img.ino[i].size <= MAXFILE * BSIZE && bytes == Content(img, i)[pos..pos + m]
    {
      hide ByteAt, SlotVal, Owned, Mapped, Content, Extends;
      BlockBytes(img, meta, owner, i, pos, m);
      var addr, _ := Bmap(i, pos / BSIZE);
      bytes := img.data[addr][pos % BSIZE..pos % BSIZE + m];
    }

    /** readi: the bytes at off, clipped to the file size; nothing when off lies beyond it.  room is how many bytes
        the caller's memory can take: copyout delivers those and readi returns -1 when that is not all. */
    method Readi(i: nat, off: nat, n: nat, room: nat) returns (tot: int, dst: seq<Byte>)
      requires Valid() && i < |img.ino| && off < 0x1_0000_0000 && n < 0x1_0000_0000
      modifies this`img, this`owner, this`logged
      ensures Valid() && img == old(img) && owner == old(owner) && logged == old(logged)
      ensures img.ino[i].size <= MAXFILE * BSIZE
      ensures if off > img.ino[i].size || off + n >= 0x1_0000_0000 then tot == 0 && dst == []
              else
                var rest := img.ino[i].size - off;
                && |dst| <= n && |dst| <= room && |dst| <= rest && (|dst| == n || |dst| == room || |dst| == rest)
                && dst == Content(img, i)[off..off + |dst|]
                && tot == if room < n && room < rest then -1 else |dst|
    {
      hide Consistent, Content, Delivered, Piece;
      Bounded(img, meta, owner, i);
      dst := [];
      if off > img.ino[i].size || (off + n) % 0x1_0000_0000 < off {
        return 0, [];
      }
      var n1 := if off + n > img.ino[i].size then img.ino[i].size - off else n;
      ghost var s := Content(img, i);
      DeliveredNone(s, off, n1, room);
      while |dst| < n1
        invariant Valid() && img == old(img) && owner == old(owner) && logged == old(logged)
        invariant |dst| <= n1 && |dst| <= room && Delivered(s, off, n1, room, dst)
        decreases n1 - |dst|
      {
        var m := Piece(off + |dst|, n1 - |dst|);
        PieceSome(off + |dst|, n1 - |dst|);
        var bytes := ReadPiece(i, off + |dst|, m);
        DeliveredNext(s, off, n1, room, dst, m);
        if room < |dst| + m {
          DeliveredIs(s, off, n1, room, dst + bytes[..room - |dst|]);
          return -1, dst + bytes[..room - |dst|];
        }
        dst := dst + bytes;
      }
      DeliveredIs(s, off, n1, room, dst);
      tot := n1;
    }

    /** bfree: the mark of block b, which is set, goes. */
    method Bfree(b: nat)
      requires b < |img.bitmap| && img.bitmap[b]
      modifies this`img, this`logged
      ensures img == old(img).(bitmap := old(img).bitmap[b := false]) && logged == old(logged) + {BBlock(b)}
    {
      img := img.(bitmap := img.bitmap[b := false]);
      logged := logged + {BBlock(b)};
    }

    /** itrunc: discard the contents of inode i.  It frees exactly the blocks of i, each of them marked in
        use when its turn comes. */
    method Itrunc(i: nat)
      requires Valid() && i < |img.ino|
      modifies this`img, this`dino, this`owner, this`logged
      ensures Valid() && Truncated(old(img), img, old(owner), i) && owner == OthersOf(old(owner), i)
      ensures dino == old(dino)[i := img.ino[i]] && IBlock(i) in logged && Recorded(old(img), img, logged, {})
      ensures Content(img, i) == []
      ensures forall f :: 0 <= f < |img.ino| && f != i ==> Content(img, f) == Content(old(img), f)
    {
      hide ByteAt, SlotVal, Mapped, Owned, Recorded;
      ghost var img0 := img;
      FreeDirect(i, img0);
      var ind := img.ino[i].addrs[NDIRECT];
      IndirectSlot(img0, i);
      if ind != 0 {
        FreeIndirect(i, img0);
        FreedSlot(img0, meta, owner, i, img.bitmap, NDIRECT, NINDIRECT, NDIRECT);
        RecordedFree(img0, img, logged, ind);
        Bfree(ind);
        ghost var freed := img;
        img := img.(ino := img.ino[i := img.ino[i].(addrs := img.ino[i].addrs[NDIRECT := 0])]);
        RecordedInodes(img0, freed, img, logged, logged, {});
      } else {
        FreedRest(img0, meta, owner, i, img.bitmap);
      }
      ghost var freed := img;
      img := img.(ino := img.ino[i := img.ino[i].(size := 0)]);
      RecordedInodes(img0, freed, img, logged, logged + {IBlock(i)}, {});
      assert img.ino[i].addrs == seq(NDIRECT + 1, _ => 0);
      FreedAll(img0, meta, owner, i, img.bitmap);
      TruncatedConsistent(img0, img, meta, owner, i);
      owner := OthersOf(owner, i);
      Iupdate(i);
    }

    method FreeDirect(i: nat, ghost img0: Img)
      requires Valid() && i < |img.ino| && img == img0
      modifies this`img, this`logged
      ensures |img.bitmap| == |img0.bitmap| && Freed(img0.bitmap, img.bitmap, owner, i, NDIRECT, 0)
      ensures img.data == img0.data
      ensures img.ino == img0.ino[i := Inode(img0.ino[i].size, Zeroed(img0.ino[i].addrs, NDIRECT))]
      ensures Recorded(img0, img, logged, {})
    {
      FreedNone(img.bitmap, owner, i);
      hide ByteAt, Mapped, Owned, Recorded, Freed, Zeroed;
      RecordedSelf(img, logged);
      ZeroedStep(img.ino[i].addrs, 0);
      var j := 0;
      while j < NDIRECT
        invariant 0 <= j <= NDIRECT && |img.bitmap| == |img0.bitmap| && img.data == img0.data
        invariant Freed(img0.bitmap, img.bitmap, owner, i, j, 0)
        invariant img.ino == img0.ino[i := Inode(img0.ino[i].size, Zeroed(img0.ino[i].addrs, j))]
        invariant Recorded(img0, img, logged, {})
      {
        FreedSlot(img0, meta, owner, i, img.bitmap, j, 0, j);
        ZeroedStep(img0.ino[i].addrs, j);
        if img.ino[i].addrs[j] != 0 {
          RecordedFree(img0, img, logged, img.ino[i].addrs[j]);
          Bfree(img.ino[i].addrs[j]);
          ghost var freed := img;
          img := img.(ino := img.ino[i := img.ino[i].(addrs := img.ino[i].addrs[j := 0])]);
          RecordedInodes(img0, freed, img, logged, logged, {});
        }
        j := j + 1;
      }
    }

    method FreeIndirect(i: nat, ghost img0: Img)
      requires Shaped(img0) && Owned(img0, meta, owner) && i < |img0.ino| == |img.ino| && |img.ino[i].addrs| == NDIRECT + 1
      requires img.data == img0.data && |img.bitmap| == |img0.bitmap|
      requires img.ino[i].addrs[NDIRECT] == img0.ino[i].addrs[NDIRECT] != 0
      requires Freed(img0.bitmap, img.bitmap, owner, i, NDIRECT, 0) && Recorded(img0, img, logged, {})
      modifies this`img, this`logged
      ensures |img.bitmap| == |img0.bitmap| && img.data == img0.data && img.ino == old(img).ino
      ensures Freed(img0.bitmap, img.bitmap, owner, i, NDIRECT, NINDIRECT) && Recorded(img0, img, logged, {})
    {
      hide ByteAt, Mapped, Owned, Recorded;
      var e := 0;
      while e < NINDIRECT
        invariant 0 <= e <= NINDIRECT && |img.bitmap| == |img0.bitmap| && img.data == img0.data && img.ino == old(img).ino
        invariant Freed(img0.bitmap, img.bitmap, owner, i, NDIRECT, e) && Recorded(img0, img, logged, {})
      {
        var b := GetWord(img.data[img.ino[i].addrs[NDIRECT]], e);
        FreedSlot(img0, meta, owner, i, img.bitmap, NDIRECT, e, NDIRECT + 1 + e);
        if b != 0 {
          RecordedFree(img0, img, logged, b);
          Bfree(b);
        }
        e := e + 1;
      }
    }

    /** Mount an image whose blocks are consistently owned. */
    constructor (img: Img, meta: nat, bmapstart: nat, inodestart: nat, ghost owner: map<nat, Owner>)
      ensures Consistent(img, meta, owner) ==> Valid()
      ensures this.img == img && this.meta == meta && dino == img.ino && this.owner == owner && logged == {}
    {
      this.img, this.meta, this.bmapstart, this.inodestart := img, meta, bmapstart, inodestart;
      this.owner, dino, logged := owner, img.ino, {};
    }

    /** One transaction of filewrite; it logs at most MAXOPBLOCKS blocks. */
    method WriteChunk(i: nat, off: nat, chunk: seq<Byte>, copyable: nat) returns (r: int, ghost stored: nat)
      requires Valid() && i < |img.ino| && off < 0x1_0000_0000 && |chunk| <= 3 * BSIZE
      modifies this`img, this`dino, this`owner, this`logged
      ensures Valid() && SameOthers(old(img), img, i) && |logged| <= MAXOPBLOCKS
      ensures img.ino[i].size <= MAXFILE * BSIZE && old(img).ino[i].size <= MAXFILE * BSIZE
      ensures r == -1 <==> off > old(img).ino[i].size || off + |chunk| > MAXFILE * BSIZE
      ensures r == -1 ==> Content(img, i) == Content(old(img), i)
      ensures r != -1 ==>
                && 0 <= r <= stored <= |chunk| && StoredAs(img.bitmap, off, |chunk|, r, stored, copyable)
                && Shown(Content(old(img), i), Content(img, i), off, chunk, r, stored)
      ensures |Free(img.bitmap)| + Spanned(off, |chunk|) + 1 >= |Free(old(img).bitmap)|
      ensures r == stored ==> Recorded(old(img), img, logged, {})
    {
      hide ByteAt, SlotVal, Owned, Content, Free, Copied, Spanned, Unspoilt, StoredAs, Recorded;
      SameOthersSelf(img, i);
      SizeBound(img, i);
      logged := {};  // begin_op
      ghost var torn;
      r, stored, torn := Writei(i, off, chunk, copyable);
      SizeBound(img, i);
      SameOthersSelf(img, i);
    }

    /** The chunk loop of filewrite on the file with inode i, open at offset off; each round is one transaction.
        The file offset and the return value count whole pieces written; stored counts the bytes in the cache.  On a
        disk that does not fill up the arguments decide both. */
    method FileWrite(i: nat, off: nat, src: seq<Byte>, copyable: nat) returns (ret: int, newoff: nat, ghost stored: nat)
      requires Valid() && i < |img.ino| && off < 0x1_0000_0000 && |src| < 0x8000_0000
      modifies this`img, this`dino, this`owner, this`logged
      ensures Valid() && off <= newoff <= off + stored <= off + |src|
      ensures ret == if newoff == off + |src| then |src| else -1
      ensures old(img).ino[i].size <= MAXFILE * BSIZE && SameOthers(old(img), img, i) && img.ino[i].size <= MAXFILE * BSIZE
      ensures if off <= old(img).ino[i].size
              then
                && Shown(Content(old(img), i), Content(img, i), off, src, newoff - off, stored)
                && FileStoredAs(img.bitmap, off, |src|, newoff - off, stored, copyable)
              else newoff == off && stored == 0 && Content(img, i) == Content(old(img), i)
      ensures |Free(img.bitmap)| + FileSpanned(off, |src|) >= |Free(old(img).bitmap)|
      ensures ret == |src| > 0 ==> copyable >= |src| && off <= old(img).ino[i].size && off + |src| <= MAXFILE * BSIZE
      ensures |Free(old(img).bitmap)| > FileSpanned(off, |src|) && copyable >= |src| && off <= old(img).ino[i].size ==>
                off + |src| <= MAXFILE * BSIZE ==> ret == |src|
    {
      hide Consistent, Content, Overlay, SameOthers, Shown, Free, FileCopied, FileStored, FileSpanned, Spanned, Copied,
        Full, FileStoredAs, FileProgress, StoredAs;
      var done := 0;
      newoff, stored := off, 0;
      Bounded(img, meta, owner, i);
      ghost var s0, free0 := Content(img, i), |Free(img.bitmap)|;
      ShownNothing(s0, off, src);
      FileStart(off, |src|, copyable, free0);
      while done < |src|
        invariant Valid() && 0 <= done <= |src| && newoff == off + done && (done == 0 || newoff <= MAXFILE * BSIZE)
        invariant stored == done <= copyable && FileProgress(off, |src|, copyable, done, free0, |Free(img.bitmap)|)
        invariant Shaped(img) && i < |img.ino| && img.ino[i].size <= MAXFILE * BSIZE && SameOthers(old(img), img, i)
        invariant if off <= |s0| then Shown(s0, Content(img, i), off, src, done, done) else done == 0 && Content(img, i) == s0
      {
        var n1 := Chunk(|src| - done);
        ghost var before := img;
        ShownLength(s0, Content(img, i), off, src, done, done);
        var r;
        ghost var more;
        r, more := WriteChunk(i, newoff, src[done..done + n1], copyable - done);
        FileNext(off, |src|, copyable, done, free0, |Free(before.bitmap)|, |Free(img.bitmap)|, r, more, img.bitmap);
        SameOthersTwice(old(img), before, img, i);
        if r > 0 {
          newoff := newoff + r;
        }
        if r >= 0 {
          ShownTwice(s0, Content(before, i), Content(img, i), off, src, done, n1, r, more);
          stored := done + more;
        }
        if r != n1 {
          ret := -1;
          return;
        }
        done := done + r;
      }
      FileEnd(off, |src|, copyable, free0, |Free(img.bitmap)|, img.bitmap);
      ret := |src|;
    }
  }

  /** Reading back what was written. */
  method WriteThenRead(fs: Fs, i: nat, off: nat, src: seq<Byte>, copyable: nat) returns (tot: int, dst: seq<Byte>)
    requires fs.Valid() && i < |fs.img.ino| && off < 0x1_0000_0000 && |src| < 0x1_0000_0000
    modifies fs`img, fs`dino, fs`owner, fs`logged
    ensures fs.Valid() && tot <= |src| && dst == if tot < 0 then [] else src[..tot]
    ensures Shaped(fs.img) && i < |fs.img.ino| && fs.img.ino[i].size <= MAXFILE * BSIZE
    ensures old(fs.img.ino[i].size) <= MAXFILE * BSIZE
    ensures tot > 0 ==>
              && off <= |Content(old(fs.img), i)| && off <= |Content(fs.img, i)|
              && Content(fs.img, i)[..off] == Content(old(fs.img), i)[..off]
  {
    hide Consistent, Content, Overlay, SameOthers, Free, Copied, Spanned, Unspoilt, StoredAs;
    ghost var stored, torn;
    ghost var s := fs.img;
    Bounded(fs.img, fs.meta, fs.owner, i);
    tot, stored, torn := fs.Writei(i, off, src, copyable);
    Bounded(fs.img, fs.meta, fs.owner, i);
    dst := [];
    if tot > 0 {
      ghost var t := Content(fs.img, i);
      var r;
      r, dst := fs.Readi(i, off, tot, tot);
      ShownBytes(Content(s, i), t, off, src, tot, stored);
    }
  }

  lemma ShownBytes(s: seq<Byte>, t: seq<Byte>, off: nat, bytes: seq<Byte>, tot: nat, stored: nat)
    requires Shown(s, t, off, bytes, tot, stored)
    ensures off + tot <= |t| && t[..off] == s[..off] && t[off..off + tot] == bytes[..tot]
    ensures off + stored <= |s| ==> t[off + stored..] == s[off + stored..]
  {
    forall x | 0 <= x < |t| ensures t[x] == if off <= x < off + stored then bytes[x - off] else s[x] {
      OverlayAt(s, off, bytes[..stored], x);
    }
    hide Overlay;
  }

  /** min(n, max), with max the bytes of one transaction of filewrite. */
  function Chunk(n: nat): (m: nat)
    ensures m <= n && m <= 3 * BSIZE && (m == n || m == 3 * BSIZE)
  {
    Min(n, ((MAXOPBLOCKS - 1 - 1 - 2) / 2) * BSIZE)
  }

  /** t is s after the first tot of bytes were written at off, with the file showing the first `stored` of them as
      far as it reaches. */
  ghost predicate Shown(s: seq<Byte>, t: seq<Byte>, off: nat, bytes: seq<Byte>, tot: nat, stored: nat) {
    && off <= |s| && tot <= stored <= |bytes| && |t| == Max(|s|, off + tot)
    && t == Overlay(s, off, bytes[..stored])[..|t|]
  }

  /** The file is its old contents with exactly the bytes written if and only if the bytes that a failed copyin left
      inside the old size are the ones that were there. */
  lemma PartialExact(s: seq<Byte>, t: seq<Byte>, off: nat, bytes: seq<Byte>, tot: nat, stored: nat)
    requires Shown(s, t, off, bytes, tot, stored)
    ensures t == Overlay(s, off, bytes[..tot]) <==>
            forall k :: tot <= k < stored && off + k < |s| ==> bytes[k] == s[off + k]
  {
    var u, v := Overlay(s, off, bytes[..tot]), Overlay(s, off, bytes[..stored]);
    forall x | 0 <= x < |t|
      ensures t[x] == v[x] && v[x] == if off <= x < off + stored then bytes[x - off] else s[x]
      ensures |u| == |t| && u[x] == if off <= x < off + tot then bytes[x - off] else s[x]
    {
      OverlayAt(s, off, bytes[..tot], x);
      OverlayAt(s, off, bytes[..stored], x);
    }
    hide Overlay;
    if forall k :: tot <= k < stored && off + k < |s| ==> bytes[k] == s[off + k] {
      forall x | 0 <= x < |t| ensures t[x] == u[x] {
        if off + tot <= x < off + stored {
          var k := x - off;
          assert bytes[k] == s[off + k];
        }
      }
    } else {
      var k :| tot <= k < stored && off + k < |s| && bytes[k] != s[off + k];
      assert t[off + k] == bytes[k] && u[off + k] == s[off + k];
    }
  }

  lemma OverlayAt(s: seq<Byte>, off: nat, bytes: seq<Byte>, x: nat)
    requires off <= |s| && x < Max(|s|, off + |bytes|)
    ensures Overlay(s, off, bytes)[x] == if off <= x < off + |bytes| then bytes[x - off] else s[x]
  {
  }

  lemma ShownNothing(s: seq<Byte>, off: nat, bytes: seq<Byte>)
    ensures off <= |s| ==> Shown(s, s, off, bytes, 0, 0)
  {
  }

  lemma ShownLength(s: seq<Byte>, t: seq<Byte>, off: nat, bytes: seq<Byte>, tot: nat, stored: nat)
    ensures Shown(s, t, off, bytes, tot, stored) ==> off + tot <= |t|
  {
  }

  /** A chunk of n bytes written after `done` bytes. */
  lemma ShownTwice(s: seq<Byte>, t: seq<Byte>, u: seq<Byte>, off: nat, src: seq<Byte>, done: nat, n: nat, r: nat,
                   more: nat)
    requires done + n <= |src| && Shown(t, u, off + done, src[done..done + n], r, more)
    ensures Shown(s, t, off, src, done, done) ==> Shown(s, u, off, src, done + r, done + more)
  {
    if Shown(s, t, off, src, done, done) {
      var v := Overlay(s, off, src[..done + more]);
      forall k | 0 <= k < |u| ensures u[k] == v[k] {
        assert u[k] == Overlay(t, off + done, src[done..done + n][..more])[k];
      }
    }
  }

  lemma Bounded(img: Img, meta: nat, owner: map<nat, Owner>, i: nat)
    requires Consistent(img, meta, owner) && i < |img.ino|
    ensures Shaped(img) && img.ino[i].size <= MAXFILE * BSIZE && SameOthers(img, img, i)
  {
    hide SlotVal, ByteAt;
    SizeBound(img, i);
    SameOthersSelf(img, i);
  }

  ghost predicate SameOthers(img0: Img, img: Img, i: nat) {
    && Shaped(img0) && Shaped(img) && |img0.ino| == |img.ino|
    && forall f :: 0 <= f < |img.ino| && f != i ==>
         img.ino[f].size <= MAXFILE * BSIZE && img0.ino[f].size <= MAXFILE * BSIZE && Content(img, f) == Content(img0, f)
  }

  lemma SameOthersSelf(img: Img, i: nat)
    requires Shaped(img) && Mapped(img)
    ensures SameOthers(img, img, i)
  {
    assert forall f :: 0 <= f < |img.ino| ==> MappedUpTo(img, f, img.ino[f].size);
  }

  lemma SameOthersTwice(a: Img, b: Img, c: Img, i: nat)
    requires SameOthers(a, b, i) && SameOthers(b, c, i)
    ensures SameOthers(a, c, i) && Shaped(c) && |c.ino| == |a.ino|
  {
  }

  ghost function Range(n: nat): (s: set<nat>)
    ensures |s| == n && forall b: nat :: b in s <==> b < n
  {
    if n == 0 then {} else Range(n - 1) + {n - 1}
  }

  ghost function Free(bitmap: seq<bool>): set<nat> {
    set b | 0 <= b < |bitmap| && !bitmap[b]
  }

  lemma BitmapParts(img: Img, meta: nat, owner: map<nat, Owner>)
    requires Consistent(img, meta, owner)
    ensures meta <= |img.data| == |img.bitmap|
    ensures forall b :: b in owner ==> meta <= b < |img.data|
    ensures forall b :: 0 <= b < |img.data| ==> (img.bitmap[b] <==> b < meta || b in owner)
  {
    forall b | b in owner ensures meta <= b < |img.data| { assert OwnedAt(img, meta, b, owner[b]); }
  }

  /** Every block is metadata, owned by exactly one slot, or free: the three counts add up to the disk. */
  lemma BlocksConserved(img: Img, meta: nat, owner: map<nat, Owner>)
    requires Consistent(img, meta, owner)
    ensures meta + |owner| + |Free(img.bitmap)| == |img.data|
  {
    hide Consistent, Range;
    BitmapParts(img, meta, owner);
    ThreeParts(Range(|img.data|), Range(meta), owner.Keys, Free(img.bitmap));
  }

  lemma ThreeParts(all: set<nat>, a: set<nat>, b: set<nat>, c: set<nat>)
    requires forall x: nat :: x in all <==> x in a || x in b || x in c
    requires a !! b && a !! c && b !! c
    ensures |all| == |a| + |b| + |c|
  {
    assert all == a + b + c;
    assert |a + b| == |a| + |b|;
    assert |a + b + c| == |a + b| + |c|;
  }

  /** addrs with the first j entries cleared. */
  function Zeroed(addrs: seq<nat>, j: nat): (r: seq<nat>)
    requires j <= |addrs|
    ensures |r| == |addrs|
  {
    seq(j, _ => 0) + addrs[j..]
  }

  lemma ZeroedStep(addrs: seq<nat>, j: nat)
    requires j < |addrs|
    ensures Zeroed(addrs, 0) == addrs && Zeroed(addrs, j)[j] == addrs[j]
    ensures Zeroed(addrs, j + 1) == Zeroed(addrs, j)[j := 0]
    ensures addrs[j] == 0 ==> Zeroed(addrs, j + 1) == Zeroed(addrs, j)
  {
  }

  lemma FreedNone(bitmap: seq<bool>, owner: map<nat, Owner>, i: nat)
    ensures Freed(bitmap, bitmap, owner, i, 0, 0)
  {
  }

  /** itrunc has dealt with the first d slots and the first e words of the indirect block. */
  predicate Handled(slot: nat, d: nat, e: nat) {
    slot < d || NDIRECT < slot < NDIRECT + 1 + e
  }

  /** The blocks in the slots dealt with have been freed, no others. */
  ghost predicate Freed(was: seq<bool>, now: seq<bool>, owner: map<nat, Owner>, i: nat, d: nat, e: nat)
    requires |was| == |now|
  {
    forall b :: 0 <= b < |was| ==> (now[b] <==> was[b] && !(b in owner && owner[b].ino == i && Handled(owner[b].slot, d, e)))
  }

  /** Freeing the block of the next slot: it is still marked in use. */
  lemma FreedSlot(img: Img, meta: nat, owner: map<nat, Owner>, i: nat, bitmap: seq<bool>, d: nat, e: nat, j: nat)
    requires Shaped(img) && Owned(img, meta, owner) && i < |img.ino|
    requires d <= NDIRECT && e <= NINDIRECT && (j == d || (j == NDIRECT + 1 + e && e < NINDIRECT))
    requires |bitmap| == |img.bitmap| && Freed(img.bitmap, bitmap, owner, i, d, e)
    ensures var b := SlotVal(img, i, j);
            var d', e' := if j == d then d + 1 else d, if j == d then e else e + 1;
            if b == 0 then Freed(img.bitmap, bitmap, owner, i, d', e')
            else b < |bitmap| && bitmap[b] && Freed(img.bitmap, bitmap[b := false], owner, i, d', e')
  {
    hide SlotVal;
    var b := SlotVal(img, i, j);
    forall c | c in owner && owner[c] == Owner(i, j) ensures c == b != 0 {
      assert OwnedAt(img, meta, c, owner[c]);
    }
    if b != 0 {
      assert OwnedAt(img, meta, b, owner[b]);
    }
  }

  /** Without an indirect block there is nothing else to free. */
  lemma FreedRest(img: Img, meta: nat, owner: map<nat, Owner>, i: nat, bitmap: seq<bool>)
    requires Shaped(img) && Owned(img, meta, owner) && i < |img.ino| && img.ino[i].addrs[NDIRECT] == 0
    requires |bitmap| == |img.bitmap| && Freed(img.bitmap, bitmap, owner, i, NDIRECT, 0)
    ensures Freed(img.bitmap, bitmap, owner, i, NDIRECT + 1, NINDIRECT)
  {
    forall c | c in owner && owner[c].ino == i ensures owner[c].slot < NDIRECT {
      assert OwnedAt(img, meta, c, owner[c]);
    }
  }

  lemma FreedAll(img: Img, meta: nat, owner: map<nat, Owner>, i: nat, bitmap: seq<bool>)
    requires Shaped(img) && Owned(img, meta, owner) && i < |img.ino|
    requires |bitmap| == |img.bitmap| && Freed(img.bitmap, bitmap, owner, i, NDIRECT + 1, NINDIRECT)
    ensures forall b :: 0 <= b < |bitmap| ==> (bitmap[b] <==> img.bitmap[b] && !(b in owner && owner[b].ino == i))
  {
    forall c | c in owner ensures owner[c].slot < NSLOTS {
      assert OwnedAt(img, meta, c, owner[c]);
    }
  }

  lemma SizeBound(img: Img, i: nat)
    requires Shaped(img) && Mapped(img) && i < |img.ino|
    ensures img.ino[i].size <= MAXFILE * BSIZE
  {
    assert MappedUpTo(img, i, img.ino[i].size);
  }

  /** dst are the first bytes of the n1 at off, no more than there is room for. */
  ghost predicate Delivered(s: seq<Byte>, off: nat, n1: nat, room: nat, dst: seq<Byte>) {
    off + n1 <= |s| && |dst| <= n1 && |dst| <= room && dst == s[off..off + |dst|]
  }

  lemma DeliveredNone(s: seq<Byte>, off: nat, n1: nat, room: nat)
    requires off + n1 <= |s|
    ensures Delivered(s, off, n1, room, [])
  {
  }

  lemma DeliveredNext(s: seq<Byte>, off: nat, n1: nat, room: nat, dst: seq<Byte>, m: nat)
    requires Delivered(s, off, n1, room, dst) && |dst| + m <= n1
    ensures off + |dst| + m <= |s|
    ensures var bytes := s[off + |dst|..off + |dst| + m];
            if room < |dst| + m then Delivered(s, off, n1, room, dst + bytes[..room - |dst|])
            else Delivered(s, off, n1, room, dst + bytes)
  {
    var a, b, c := off, off + |dst|, off + |dst| + m;
    assert s[a..b] + s[b..c] == s[a..c];
    if room < |dst| + m {
      assert s[b..c][..room - |dst|] == s[b..off + room];
      assert s[a..b] + s[b..off + room] == s[a..off + room];
    }
  }

  lemma DeliveredIs(s: seq<Byte>, off: nat, n1: nat, room: nat, dst: seq<Byte>)
    requires Delivered(s, off, n1, room, dst)
    ensures off + |dst| <= |s| && dst == s[off..off + |dst|]
  {
  }

  lemma PieceSome(off: nat, n: nat)
    ensures n > 0 ==> Piece(off, n) > 0
  {
  }

  /** The bytes of one block, as the file sees them. */
  lemma BlockBytes(img: Img, meta: nat, owner: map<nat, Owner>, i: nat, pos: nat, m: nat)
    requires Consistent(img, meta, owner) && i < |img.ino| && pos + m <= img.ino[i].size
    requires pos % BSIZE + m <= BSIZE && 0 < m
    ensures img.ino[i].size <= MAXFILE * BSIZE && pos / BSIZE < MAXFILE
    ensures var b := SlotVal(img, i, SlotOf(pos / BSIZE));
            && b != 0 && b < |img.data|
            && img.data[b][pos % BSIZE..pos % BSIZE + m] == Content(img, i)[pos..pos + m]
  {
    hide SlotVal;
    assert MappedUpTo(img, i, img.ino[i].size);
    var b := SlotVal(img, i, SlotOf(pos / BSIZE));
    assert b in owner && OwnedAt(img, meta, b, owner[b]);
    var got, want := img.data[b][pos % BSIZE..pos % BSIZE + m], Content(img, i)[pos..pos + m];
    forall t | 0 <= t < m ensures got[t] == want[t] {
      assert (pos + t) / BSIZE == pos / BSIZE && (pos + t) % BSIZE == pos % BSIZE + t;
      assert want[t] == ByteAt(img, i, pos + t);
    }
  }

  /** How many data blocks the rounds so far can have allocated: an unaligned start is mapped already. */
  function FreshBound(off: nat, rounds: nat): nat {
    if rounds == 0 then 0 else if off % BSIZE != 0 then rounds - 1 else rounds
  }

  /** Between rounds a write stands at its start or on a block boundary. */
  predicate OnBoundary(off: nat, tot: nat, n: nat, rounds: nat) {
    && (tot < n ==> if rounds == 0 then tot == 0 else off % BSIZE + tot == rounds * BSIZE)
    && (n <= 3 * BSIZE ==> rounds <= if off % BSIZE == 0 then 3 else 4)
  }

  lemma BoundaryNext(off: nat, tot: nat, n: nat, rounds: nat)
    requires OnBoundary(off, tot, n, rounds) && tot < n
    ensures OnBoundary(off, tot + Piece(off + tot, n - tot), n, rounds + 1)
    ensures n <= 3 * BSIZE ==> rounds + 1 <= if off % BSIZE == 0 then 3 else 4
  {
    assert rounds > 0 ==> (off + tot) % BSIZE == 0;
  }

  lemma BoundaryRounds(off: nat, tot: nat, n: nat, rounds: nat)
    requires OnBoundary(off, tot, n, rounds)
    ensures n <= 3 * BSIZE ==> rounds <= if off % BSIZE == 0 then 3 else 4
  {
  }

  lemma WrittenSizes(img0: Img, img: Img, i: nat, off: nat, src: seq<Byte>, tot: nat)
    requires Written(img0, img, i, off, src, tot)
    ensures i < |img.ino| == |img0.ino| && img.ino[i].size == img0.ino[i].size && tot <= |src|
  {
  }

  /** An unaligned start lies in a block the file already has. */
  lemma FirstRoundMapped(img0: Img, img: Img, i: nat, off: nat, src: seq<Byte>, tot: nat)
    requires Written(img0, img, i, off, src, tot) && tot < |src|
    ensures Shaped(img) && i < |img.ino| && (off + tot) / BSIZE < MAXFILE
    ensures tot == 0 && off % BSIZE != 0 ==> SlotVal(img, i, SlotOf(off / BSIZE)) != 0
  {
    hide ByteAt, SlotVal;
  }

  lemma {:induction false} SubsetCard(a: set<nat>, b: set<nat>)
    requires a <= b
    ensures |a| <= |b|
  {
    assert b == a + (b - a);
    assert a !! (b - a);
  }

  lemma UnionCard(a: set<nat>, b: set<nat>)
    ensures |a + b| <= |a| + |b|
  {
    assert a + b == a + (b - a);
    SubsetCard(b - a, b);
  }

  /** What has been logged after some rounds: data blocks, bitmap blocks and the indirect block. */
  ghost predicate Counted(base: set<nat>, logged: set<nat>, data: set<nat>, bits: set<nat>, off: nat, rounds: nat,
                          ind0: nat, ind: nat) {
    && logged <= base + data + bits + NonZero(ind)
    && |data| <= rounds && |bits| <= Fresh(ind0, ind) + FreshBound(off, rounds)
    && (ind0 != 0 ==> ind == ind0)
  }

  lemma CountNone(logged: set<nat>, off: nat, n: nat, ind: nat)
    ensures Counted(logged, logged, {}, {}, off, 0, ind, ind) && OnBoundary(off, 0, n, 0)
  {
  }

  lemma CountRound(base: set<nat>, was: set<nat>, logged: set<nat>, data: set<nat>, bits: set<nat>, off: nat,
                   n: nat, tot: nat,
                   rounds: nat, ind0: nat, ind: nat, ind': nat, slot: nat, addr: nat, more: set<nat>)
    requires Counted(base, was, data, bits, off, rounds, ind0, ind) && OnBoundary(off, tot, n, rounds) && tot < n
    requires logged <= was + more + NonZero(addr) + NonZero(ind') && (ind != 0 ==> ind' == ind)
    requires |more| <= Fresh(slot, addr) + Fresh(ind, ind')
    requires tot == 0 && off % BSIZE != 0 ==> slot != 0
    ensures Counted(base, logged, data + NonZero(addr), bits + more, off, rounds + 1, ind0, ind')
  {
    UnionCard(data, NonZero(addr));
    UnionCard(bits, more);
  }

  lemma CountTotal(base: set<nat>, logged: set<nat>, data: set<nat>, bits: set<nat>, off: nat, n: nat, rounds: nat,
                   ind0: nat, ind: nat)
    requires Counted(base, logged, data, bits, off, rounds, ind0, ind)
    requires n <= 3 * BSIZE ==> rounds <= if off % BSIZE == 0 then 3 else 4
    ensures logged <= base + data + bits + NonZero(ind)
    ensures n <= 3 * BSIZE ==> |data| + |bits| <= 8
  {
  }

  lemma Tally(logged: set<nat>, base: set<nat>, data: set<nat>, bits: set<nat>, ind: set<nat>, inode: nat)
    requires logged <= base + data + bits + ind + {inode}
    ensures |logged| <= |base| + |data| + |bits| + |ind| + 1
  {
    SubsetCard(logged, base + data + bits + ind + {inode});
    UnionCard(base, data);
    UnionCard(base + data, bits);
    UnionCard(base + data + bits, ind);
    UnionCard(base + data + bits + ind, {inode});
  }

  /** min(n, BSIZE - off % BSIZE). */
  function Piece(off: nat, n: nat): (m: nat)
    ensures m <= n && off % BSIZE + m <= BSIZE && (m == n || (off + m) % BSIZE == 0)
  {
    if n < BSIZE - off % BSIZE then n else BSIZE - off % BSIZE
  }

  lemma WrittenBounds(img0: Img, img: Img, i: nat, off: nat, src: seq<Byte>, tot: nat)
    requires Written(img0, img, i, off, src, tot) && tot < |src|
    ensures Shaped(img) && i < |img.ino| && (off + tot) / BSIZE < MAXFILE
  {
  }

  lemma PutIndirect(img: Img, meta: nat, owner: map<nat, Owner>, b: nat, o: nat, bytes: seq<Byte>, i: nat, j: nat)
    requires Consistent(img, meta, owner) && i < |img.ino| && j < NSLOTS && j != NDIRECT && o + |bytes| <= BSIZE
    requires b == SlotVal(img, i, j) && b != 0
    ensures b < |img.data| && Shaped(Put(img, b, o, bytes)) && |Put(img, b, o, bytes).ino| == |img.ino|
    ensures SlotVal(Put(img, b, o, bytes), i, NDIRECT) == SlotVal(img, i, NDIRECT)
    ensures Put(img, b, o, bytes).bitmap == img.bitmap
  {
    PutSlots(img, meta, owner, b, o, bytes, i, NDIRECT);
  }

  lemma ExtendsSelf(img: Img)
    requires Shaped(img)
    ensures Extends(img, img)
  {
  }

  lemma ExtendsSlot(img: Img, img': Img, i: nat, j: nat)
    requires Shaped(img) && Shaped(img') && Extends(img, img') && i < |img.ino| && j < NSLOTS
    ensures |img'.ino| == |img.ino|
    ensures SlotVal(img, i, j) != 0 ==> SlotVal(img', i, j) == SlotVal(img, i, j)
  {
  }

  /** Without an indirect block no later block is mapped. */
  lemma IndirectSlot(img: Img, i: nat)
    requires Shaped(img) && i < |img.ino|
    ensures SlotVal(img, i, NDIRECT) == img.ino[i].addrs[NDIRECT]
    ensures forall j :: NDIRECT < j < NSLOTS && SlotVal(img, i, j) != 0 ==> SlotVal(img, i, NDIRECT) != 0
  {
  }

  function Max(a: nat, b: nat): nat {
    if a < b then b else a
  }

  /** s with bytes written at off, which lies inside s or at its end. */
  function Overlay(s: seq<Byte>, off: nat, bytes: seq<Byte>): seq<Byte>
    requires off <= |s|
  {
    seq(Max(|s|, off + |bytes|), k requires 0 <= k < Max(|s|, off + |bytes|) =>
      if off <= k < off + |bytes| then bytes[k - off] else s[k])
  }

  /** The first tot bytes of src have reached the blocks of inode i; its size has not changed yet. */
  ghost predicate Written(img0: Img, img: Img, i: nat, off: nat, src: seq<Byte>, tot: nat) {
    && Shaped(img0) && Shaped(img) && |img.ino| == |img0.ino| && i < |img0.ino| && tot <= |src|
    && off <= img0.ino[i].size && off + |src| <= MAXFILE * BSIZE
    && (forall f :: 0 <= f < |img.ino| ==> img.ino[f].size == img0.ino[f].size <= MAXFILE * BSIZE)
    && MappedUpTo(img, i, Max(img0.ino[i].size, off + tot))
    && (forall k :: 0 <= k < Max(img0.ino[i].size, off + tot) ==>
          ByteAt(img, i, k) == if off <= k < off + tot then src[k - off] else ByteAt(img0, i, k))
    && (forall f :: 0 <= f < |img.ino| && f != i ==> Content(img, f) == Content(img0, f))
  }

  lemma WrittenNothing(img: Img, meta: nat, owner: map<nat, Owner>, i: nat, off: nat, src: seq<Byte>)
    requires Consistent(img, meta, owner) && i < |img.ino| && off <= img.ino[i].size && off + |src| <= MAXFILE * BSIZE
    ensures Written(img, img, i, off, src, 0)
  {
    hide ByteAt, SlotVal;
    assert MappedUpTo(img, i, img.ino[i].size);
    assert forall f :: 0 <= f < |img.ino| ==> MappedUpTo(img, f, img.ino[f].size);
  }

  lemma WrittenExtends(img0: Img, img: Img, img': Img, meta: nat, owner: map<nat, Owner>, i: nat, off: nat,
                       src: seq<Byte>, tot: nat)
    requires Consistent(img, meta, owner) && Written(img0, img, i, off, src, tot) && Shaped(img') && Extends(img, img')
    ensures Written(img0, img', i, off, src, tot)
  {
    hide ByteAt, SlotVal;
    forall f | 0 <= f < |img.ino| && f != i ensures Content(img', f) == Content(img, f) {
      ExtendsContent(img, img', meta, owner, f);
    }
  }

  lemma WrittenPut(img0: Img, img: Img, meta: nat, owner: map<nat, Owner>, i: nat, off: nat, src: seq<Byte>,
                   tot: nat, m: nat, b: nat)
    requires Consistent(img, meta, owner) && Written(img0, img, i, off, src, tot)
    requires 0 < m && tot + m <= |src| && (off + tot) % BSIZE + m <= BSIZE
    requires b == SlotVal(img, i, SlotOf((off + tot) / BSIZE)) && b != 0
    ensures b < |img.data| && Consistent(Put(img, b, (off + tot) % BSIZE, src[tot..tot + m]), meta, owner)
    ensures Written(img0, Put(img, b, (off + tot) % BSIZE, src[tot..tot + m]), i, off, src, tot + m)
  {
    hide ByteAt, SlotVal, Put;
    var o, bn := (off + tot) % BSIZE, (off + tot) / BSIZE;
    assert b in owner && owner[b] == Owner(i, SlotOf(bn));
    assert OwnedAt(img, meta, b, owner[b]);
    PutConsistent(img, meta, owner, b, o, src[tot..tot + m]);
    PutRest(img, b, o, src[tot..tot + m]);
    var img' := Put(img, b, o, src[tot..tot + m]);
    forall n | 0 <= n < MAXFILE && n * BSIZE < Max(img0.ino[i].size, off + tot + m) ensures SlotVal(img', i, SlotOf(n)) != 0 {
      PutSlots(img, meta, owner, b, o, src[tot..tot + m], i, SlotOf(n));
      assert n == bn || n * BSIZE < Max(img0.ino[i].size, off + tot);
    }
    forall k | 0 <= k < Max(img0.ino[i].size, off + tot + m)
      ensures ByteAt(img', i, k) == if off <= k < off + tot + m then src[k - off] else ByteAt(img0, i, k)
    {
      PutBytes(img, meta, owner, b, o, src[tot..tot + m], i, k);
      assert k / BSIZE == bn <==> bn * BSIZE <= k < (bn + 1) * BSIZE;
    }
  }

  lemma PutRest(img: Img, b: nat, o: nat, bytes: seq<Byte>)
    requires b < |img.data| && o + |bytes| <= BSIZE
    ensures Put(img, b, o, bytes).ino == img.ino && |Put(img, b, o, bytes).data| == |img.data|
    ensures Shaped(img) ==> Shaped(Put(img, b, o, bytes))
  {
  }

  lemma WrittenDone(img0: Img, img: Img, meta: nat, owner: map<nat, Owner>, i: nat, off: nat, src: seq<Byte>,
                    tot: nat, stored: nat)
    requires Consistent(img, meta, owner) && Written(img0, img, i, off, src, stored) && tot <= stored
    ensures var size := Max(img0.ino[i].size, off + tot);
            var img' := Resize(img, i, size);
            && Consistent(img', meta, owner) && size <= MAXFILE * BSIZE
            && Shown(Content(img0, i), Content(img', i), off, src, tot, stored) && SameOthers(img0, img', i)
  {
    hide ByteAt, SlotVal;
    ResizeConsistent(img, meta, owner, i, Max(img0.ino[i].size, off + tot));
  }

  function Min(a: nat, b: nat): nat {
    if a < b then a else b
  }

  /** The bytes writei counts of n at off when the caller's memory supplies `copyable` of them and the disk has room:
      whole pieces, up to the first that cannot be copied in. */
  function Copied(off: nat, n: nat, copyable: nat): (r: nat)
    ensures r <= n && r <= copyable
    decreases n
  {
    var m := Piece(off, n);
    if n == 0 || copyable < m then 0 else m + Copied(off + m, n - m, copyable - m)
  }

  /** The pieces of n bytes at off. */
  function Spanned(off: nat, n: nat): nat
    decreases n
  {
    if n == 0 then 0 else 1 + Spanned(off + Piece(off, n), n - Piece(off, n))
  }

  lemma CopiedStep(off: nat, n: nat, copyable: nat)
    requires 0 < n
    ensures var m := Piece(off, n);
            && 0 < m <= n && Spanned(off, n) == 1 + Spanned(off + m, n - m)
            && (copyable < m ==> Copied(off, n, copyable) == 0)
            && (copyable >= m ==> Copied(off, n, copyable) == m + Copied(off + m, n - m, copyable - m))
  {
  }

  /** Everything is counted exactly when everything can be copied in. */
  lemma {:induction false} CopiedAll(off: nat, n: nat, copyable: nat)
    ensures Copied(off, n, copyable) == n <==> copyable >= n
    decreases n
  {
    if n > 0 && copyable >= Piece(off, n) {
      CopiedAll(off + Piece(off, n), n - Piece(off, n), copyable - Piece(off, n));
    }
  }

  /** Why writei stops after tot of n bytes with `stored` of them in the cache: the disk is full, or it is done or
      copyin failed and stored what it could reach.  It stops on a block boundary. */
  predicate StoredAs(bitmap: seq<bool>, off: nat, n: nat, tot: nat, stored: nat, copyable: nat) {
    && tot <= Copied(off, n, copyable) && (tot == 0 || tot == n || (off + tot) % BSIZE == 0)
    && ((tot == stored && Full(bitmap)) || (tot == Copied(off, n, copyable) && stored == Min(copyable, n)))
  }

  /** After `rounds` rounds of writei's loop, tot bytes further: what is left to count, and what is left of the free
      blocks.  ind is the indirect block, ind0 the one before the loop. */
  predicate Progress(off: nat, n: nat, copyable: nat, tot: nat, rounds: nat, free0: nat, free: nat, ind0: nat, ind: nat) {
    && tot <= n && tot <= copyable && (tot == 0 || tot == n || (off + tot) % BSIZE == 0)
    && Copied(off, n, copyable) == tot + Copied(off + tot, n - tot, copyable - tot)
    && rounds + Spanned(off + tot, n - tot) == Spanned(off, n)
    && free + rounds + Fresh(ind0, ind) >= free0 && (ind0 != 0 ==> ind == ind0)
  }

  lemma ProgressStart(off: nat, n: nat, copyable: nat, free: nat, ind: nat)
    ensures Progress(off, n, copyable, 0, 0, free, free, ind, ind)
  {
  }

  lemma ProgressNext(off: nat, n: nat, copyable: nat, tot: nat, rounds: nat, free0: nat, free: nat, free': nat, ind0: nat,
                     ind: nat, ind': nat, m: nat, extra: nat, bitmap: seq<bool>)
    requires Progress(off, n, copyable, tot, rounds, free0, free, ind0, ind) && tot < n
    requires free' >= free - 1 - Fresh(ind, ind') && (ind != 0 ==> ind' == ind)
    requires m == 0 || (m == Piece(off + tot, n - tot) && tot + m <= copyable)
    requires m == 0 ==>
               || (Full(bitmap) && extra == 0)
               || (copyable < tot + Piece(off + tot, n - tot) && tot + extra == Max(tot, copyable))
    ensures m > 0 ==> Progress(off, n, copyable, tot + m, rounds + 1, free0, free', ind0, ind')
    ensures m == 0 ==> StoredAs(bitmap, off, n, tot, tot + extra, copyable) && free' + Spanned(off, n) + 1 >= free0
  {
    hide Copied, Spanned, Full;
    CopiedStep(off + tot, n - tot, copyable - tot);
  }

  /** Where writei's loop stands: blocks logged, bytes counted, free blocks left. */
  ghost predicate Tracked(base: set<nat>, logged: set<nat>, data: set<nat>, bits: set<nat>, off: nat, n: nat,
                          copyable: nat, tot: nat, rounds: nat, free0: nat, free: nat, ind0: nat, ind: nat)
  {
    && Counted(base, logged, data, bits, off, rounds, ind0, ind) && OnBoundary(off, tot, n, rounds)
    && Progress(off, n, copyable, tot, rounds, free0, free, ind0, ind)
  }

  lemma TrackedStart(logged: set<nat>, off: nat, n: nat, copyable: nat, free: nat, ind: nat)
    ensures Tracked(logged, logged, {}, {}, off, n, copyable, 0, 0, free, free, ind, ind)
  {
    hide Counted, OnBoundary, Progress;
    CountNone(logged, off, n, ind);
    ProgressStart(off, n, copyable, free, ind);
  }

  lemma TrackedNext(base: set<nat>, was: set<nat>, logged: set<nat>, data: set<nat>, bits: set<nat>, off: nat, n: nat,
                    copyable: nat, tot: nat, rounds: nat, free0: nat, free: nat, free': nat, ind0: nat, ind: nat,
                    ind': nat, m: nat, extra: nat, bitmap: seq<bool>, slot: nat, addr: nat, more: set<nat>)
    requires Tracked(base, was, data, bits, off, n, copyable, tot, rounds, free0, free, ind0, ind) && tot < n
    requires free' >= free - 1 - Fresh(ind, ind') && (ind != 0 ==> ind' == ind)
    requires m == 0 || (m == Piece(off + tot, n - tot) && tot + m <= copyable)
    requires m == 0 ==>
               || (Full(bitmap) && extra == 0)
               || (copyable < tot + Piece(off + tot, n - tot) && tot + extra == Max(tot, copyable))
    requires logged <= was + more + NonZero(addr) + NonZero(ind') && |more| <= Fresh(slot, addr) + Fresh(ind, ind')
    requires tot == 0 && off % BSIZE != 0 ==> slot != 0
    ensures m > 0 ==>
              Tracked(base, logged, data + NonZero(addr), bits + more, off, n, copyable, tot + m, rounds + 1, free0, free',
                      ind0, ind')
    ensures m == 0 ==>
              && StoredAs(bitmap, off, n, tot, tot + extra, copyable) && free' + Spanned(off, n) + 1 >= free0
              && logged <= base + (data + NonZero(addr)) + (bits + more) + NonZero(ind')
              && (n <= 3 * BSIZE ==> |data + NonZero(addr)| + |bits + more| <= 8)
  {
    hide Counted, OnBoundary, Progress, StoredAs, Spanned, Piece, Full;
    ProgressNext(off, n, copyable, tot, rounds, free0, free, free', ind0, ind, ind', m, extra, bitmap);
    BoundaryNext(off, tot, n, rounds);
    CountRound(base, was, logged, data, bits, off, n, tot, rounds, ind0, ind, ind', slot, addr, more);
    if m == 0 {
      CountTotal(base, logged, data + NonZero(addr), bits + more, off, n, rounds + 1, ind0, ind');
    }
  }

  lemma TrackedEnd(base: set<nat>, logged: set<nat>, data: set<nat>, bits: set<nat>, off: nat, n: nat, copyable: nat,
                   rounds: nat, free0: nat, free: nat, ind0: nat, ind: nat, bitmap: seq<bool>)
    requires Tracked(base, logged, data, bits, off, n, copyable, n, rounds, free0, free, ind0, ind)
    ensures StoredAs(bitmap, off, n, n, n, copyable) && free + Spanned(off, n) + 1 >= free0
    ensures logged <= base + data + bits + NonZero(ind) && (n <= 3 * BSIZE ==> |data| + |bits| <= 8)
  {
    hide Counted, OnBoundary, Progress, StoredAs, Spanned;
    BoundaryRounds(off, n, n, rounds);
    ProgressEnd(off, n, copyable, rounds, free0, free, ind0, ind, bitmap);
    CountTotal(base, logged, data, bits, off, n, rounds, ind0, ind);
  }

  lemma ProgressEnd(off: nat, n: nat, copyable: nat, rounds: nat, free0: nat, free: nat, ind0: nat, ind: nat,
                    bitmap: seq<bool>)
    requires Progress(off, n, copyable, n, rounds, free0, free, ind0, ind)
    ensures StoredAs(bitmap, off, n, n, n, copyable) && free + Spanned(off, n) + 1 >= free0
  {
    hide Full;
  }

  /** The bytes of a piece that fails half-way are the ones the file has there already. */
  predicate Unspoilt(s: seq<Byte>, off: nat, src: seq<Byte>, copyable: nat) {
    forall k :: Copied(off, |src|, copyable) <= k < Min(copyable, |src|) && off + k < |s| ==> src[k] == s[off + k]
  }

  /** With more free blocks than the pieces can take, the arguments decide how far writei comes, and whether the file
      is then just the old one with the bytes written. */
  lemma RoomExact(s: seq<Byte>, t: seq<Byte>, bitmap: seq<bool>, free0: nat, off: nat, src: seq<Byte>, tot: nat,
                  stored: nat, copyable: nat)
    requires Shown(s, t, off, src, tot, stored) && StoredAs(bitmap, off, |src|, tot, stored, copyable)
    requires |Free(bitmap)| + Spanned(off, |src|) + 1 >= free0
    ensures free0 > Spanned(off, |src|) + 1 ==>
              && tot == Copied(off, |src|, copyable) && stored == Min(copyable, |src|)
              && (t == Overlay(s, off, src[..tot]) <==> Unspoilt(s, off, src, copyable))
  {
    hide Copied, Spanned, Free, Full, Overlay, Shown;
    FullFree(bitmap);
    PartialExact(s, t, off, src, tot, stored);
  }

  /** The same for filewrite: chunk after chunk, up to one that fails or does not fit the largest file. */
  function FileCopied(off: nat, n: nat, copyable: nat): (r: nat)
    ensures r <= n && r <= copyable
    decreases n
  {
    var n1 := Chunk(n);
    if n == 0 || off + n1 > MAXFILE * BSIZE then 0
    else
      var r := Copied(off, n1, copyable);
      if r < n1 then r else n1 + FileCopied(off + n1, n - n1, copyable - n1)
  }

  function FileStored(off: nat, n: nat, copyable: nat): nat
    decreases n
  {
    var n1 := Chunk(n);
    if n == 0 || off + n1 > MAXFILE * BSIZE then 0
    else if copyable < n1 then copyable
    else n1 + FileStored(off + n1, n - n1, copyable - n1)
  }

  /** More blocks than filewrite of n bytes at off can take. */
  function FileSpanned(off: nat, n: nat): nat
    decreases n
  {
    if n == 0 then 0 else Spanned(off, Chunk(n)) + 1 + FileSpanned(off + Chunk(n), n - Chunk(n))
  }

  predicate FileStoredAs(bitmap: seq<bool>, off: nat, n: nat, tot: nat, stored: nat, copyable: nat) {
    && tot <= FileCopied(off, n, copyable)
    && ((tot == stored && Full(bitmap))
        || (tot == FileCopied(off, n, copyable) && stored == FileStored(off, n, copyable)))
  }

  lemma FileStep(off: nat, n: nat, copyable: nat)
    requires 0 < n
    ensures var n1 := Chunk(n);
            var r := Copied(off, n1, copyable);
            && 0 < n1 <= n && n1 <= 3 * BSIZE && FileSpanned(off, n) == Spanned(off, n1) + 1 + FileSpanned(off + n1, n - n1)
            && (r == n1 <==> copyable >= n1)
            && (off + n1 > MAXFILE * BSIZE ==> FileCopied(off, n, copyable) == 0 == FileStored(off, n, copyable))
            && (off + n1 <= MAXFILE * BSIZE && r < n1 ==>
                  FileCopied(off, n, copyable) == r && FileStored(off, n, copyable) == copyable)
            && (off + n1 <= MAXFILE * BSIZE && r == n1 ==>
                  && FileCopied(off, n, copyable) == n1 + FileCopied(off + n1, n - n1, copyable - n1)
                  && FileStored(off, n, copyable) == n1 + FileStored(off + n1, n - n1, copyable - n1))
  {
    hide Copied, Spanned;
    CopiedAll(off, Chunk(n), copyable);
  }

  /** Everything goes in exactly when everything can be copied in and fits. */
  lemma {:induction false} FileAll(off: nat, n: nat, copyable: nat)
    ensures FileCopied(off, n, copyable) == n <==> n == 0 || (copyable >= n && off + n <= MAXFILE * BSIZE)
    decreases n
  {
    hide Copied, Spanned;
    if n > 0 {
      FileStep(off, n, copyable);
      if copyable >= Chunk(n) {
        FileAll(off + Chunk(n), n - Chunk(n), copyable - Chunk(n));
      }
    }
  }

  /** `done` bytes of whole chunks written: what is left to count and to store, and what is left of the free blocks. */
  predicate FileProgress(off: nat, n: nat, copyable: nat, done: nat, free0: nat, free: nat) {
    && done <= n && done <= copyable && FileSpanned(off + done, n - done) + free0 <= free + FileSpanned(off, n)
    && FileCopied(off, n, copyable) == done + FileCopied(off + done, n - done, copyable - done)
    && FileStored(off, n, copyable) == done + FileStored(off + done, n - done, copyable - done)
    && (FileCopied(off, n, copyable) == n <==> n == 0 || (copyable >= n && off + n <= MAXFILE * BSIZE))
  }

  lemma FileStart(off: nat, n: nat, copyable: nat, free: nat)
    ensures FileProgress(off, n, copyable, 0, free, free)
  {
    hide FileCopied, FileStored, FileSpanned;
    FileAll(off, n, copyable);
  }

  /** One chunk further, or why filewrite stops. */
  lemma FileNext(off: nat, n: nat, copyable: nat, done: nat, free0: nat, free: nat, free': nat, r: int, more: nat,
                 bitmap: seq<bool>)
    requires FileProgress(off, n, copyable, done, free0, free) && done < n && free' == |Free(bitmap)|
    requires var n1 := Chunk(n - done);
             && free' + Spanned(off + done, n1) + 1 >= free
             && (r == -1 || (0 <= r <= more <= n1 && StoredAs(bitmap, off + done, n1, r, more, copyable - done)))
             && (off + done + n1 > MAXFILE * BSIZE ==> r == -1)
    ensures var n1 := Chunk(n - done);
            && free' + FileSpanned(off, n) >= free0
            && (r == n1 ==> more == n1 && done + n1 <= copyable && FileProgress(off, n, copyable, done + n1, free0, free'))
            && (0 <= r != n1 ==>
                  && FileStoredAs(bitmap, off, n, done + r, done + more, copyable)
                  && (free0 > FileSpanned(off, n) && copyable >= n ==> off + n > MAXFILE * BSIZE))
            && (r == -1 && off + done + n1 > MAXFILE * BSIZE ==> FileStoredAs(bitmap, off, n, done, done, copyable))
  {
    hide Copied, Spanned, Free, Full, FileCopied, FileStored, FileSpanned, Chunk;
    FileStep(off + done, n - done, copyable - done);
    FullFree(bitmap);
  }

  lemma FileEnd(off: nat, n: nat, copyable: nat, free0: nat, free: nat, bitmap: seq<bool>)
    requires FileProgress(off, n, copyable, n, free0, free)
    ensures FileStoredAs(bitmap, off, n, n, n, copyable) && free + FileSpanned(off, n) >= free0
    ensures n > 0 ==> copyable >= n && off + n <= MAXFILE * BSIZE
  {
    hide Full;
  }

  lemma FreeTaken(bitmap: seq<bool>, b: nat)
    requires b < |bitmap| && !bitmap[b]
    ensures |Free(bitmap[b := true])| == |Free(bitmap)| - 1
  {
    assert Free(bitmap) == Free(bitmap[b := true]) + {b};
  }

  lemma FullFree(bitmap: seq<bool>)
    ensures Full(bitmap) <==> |Free(bitmap)| == 0
  {
    if !Full(bitmap) {
      var b :| 0 <= b < |bitmap| && !bitmap[b];
      assert b in Free(bitmap);
    } else {
      assert Free(bitmap) == {};
    }
  }

  function NonZero(b: nat): set<nat> {
    if b == 0 then {} else {b}
  }

  /** One when a zero slot got a block. */
  function Fresh(was: nat, now: nat): nat {
    if was == 0 && now != 0 then 1 else 0
  }

  predicate Full(bitmap: seq<bool>) {
    forall b :: 0 <= b < |bitmap| ==> bitmap[b]
  }

  // ---------------------------------------------------------------- a failed copyin

  /** One file of two zero bytes, in block 1 of six. */
  function TwoBytes(): Img {
    Img([true, true, false, false, false, false], seq(6, _ => Zeros()), [Inode(2, [1] + seq(NDIRECT, _ => 0))])
  }

  lemma TwoBytesOk()
    ensures Consistent(TwoBytes(), 1, map[1 := Owner(0, 0)]) && Content(TwoBytes(), 0) == [0, 0]
    ensures |Free(TwoBytes().bitmap)| == 4
  {
    var img := TwoBytes();
    assert Shaped(img);
    assert forall j :: 0 <= j < NSLOTS ==> SlotVal(img, 0, j) == if j == 0 then 1 else 0;
    assert MappedUpTo(img, 0, 2);
    assert Free(img.bitmap) == {2, 3, 4, 5};
  }

  /** A writei of two bytes of which only the first can be copied in: it counts none of them, and the file shows the
      first. */
  method CopyinSpoils() returns (fs: Fs, tot: int)
    ensures fresh(fs) && fs.Valid() && tot == 0 && |fs.img.ino| == 1 && fs.img.ino[0].size == 2
    ensures Content(TwoBytes(), 0) == [0, 0] && Content(fs.img, 0) == [7, 0]
  {
    TwoBytesOk();
    hide Consistent, TwoBytes, Free, Content;
    fs := new Fs(TwoBytes(), 1, 1, 1, map[1 := Owner(0, 0)]);
    ghost var stored, torn;
    tot, stored, torn := fs.Writei(0, 0, [7, 8], 1);
  }
}
