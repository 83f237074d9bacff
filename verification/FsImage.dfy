/** The on-disk structures of fs.c as values: block bitmap, blocks, inodes, and who owns which block. */
module FsImage {
  import opened Basics

  const BSIZE: nat := 1024
  const NDIRECT: nat := 12
  const NINDIRECT: nat := 256
  const MAXFILE: nat := NDIRECT + NINDIRECT
  const NSLOTS: nat := MAXFILE + 1

  type Block = b: seq<Byte> | |b| == BSIZE witness seq(BSIZE, _ => 0)

  /** Addresses 0 .. NDIRECT-1 are direct blocks, address NDIRECT is the indirect block. */
  datatype Inode = Inode(size: nat, addrs: seq<nat>)

  datatype Img = Img(bitmap: seq<bool>, data: seq<Block>, ino: seq<Inode>)

  // ---------------------------------------------------------------- words in a block

  function Zeros(): Block {
    seq(BSIZE, _ => 0)
  }

  /** The little-endian 32-bit word w of a block. */
  function GetWord(b: Block, w: nat): nat
    requires w < NINDIRECT
  {
    var b0: nat, b1: nat, b2: nat, b3: nat := b[4 * w], b[4 * w + 1], b[4 * w + 2], b[4 * w + 3];
    b0 + 0x100 * b1 + 0x1_0000 * b2 + 0x100_0000 * b3
  }

  function PutWord(b: Block, w: nat, v: nat): Block
    requires w < NINDIRECT && v < 0x1_0000_0000
  {
    b[4 * w := v % 0x100][4 * w + 1 := v / 0x100 % 0x100][4 * w + 2 := v / 0x1_0000 % 0x100][4 * w + 3 := v / 0x100_0000]
  }

  lemma GetPut(b: Block, w: nat, v: nat, u: nat)
    requires w < NINDIRECT && u < NINDIRECT && v < 0x1_0000_0000
    ensures GetWord(PutWord(b, w, v), u) == if u == w then v else GetWord(b, u)
  {
    if u == w {
      assert v / 0x100 == v / 0x100 % 0x100 + 0x100 * (v / 0x1_0000);
      assert v / 0x1_0000 == v / 0x1_0000 % 0x100 + 0x100 * (v / 0x100_0000);
    }
  }

  lemma GetZeros(w: nat)
    requires w < NINDIRECT
    ensures GetWord(Zeros(), w) == 0
  {
  }

  // ---------------------------------------------------------------- block slots of an inode

  /** All the places an inode can name a block: its addresses, then the words of its indirect block. */
  function SlotVal(img: Img, i: nat, j: nat): nat
    requires i < |img.ino| && |img.ino[i].addrs| == NDIRECT + 1 && j < NSLOTS
    requires img.ino[i].addrs[NDIRECT] < |img.data|
  {
    var addrs := img.ino[i].addrs;
    if j <= NDIRECT then addrs[j]
    else if addrs[NDIRECT] == 0 then 0
    else GetWord(img.data[addrs[NDIRECT]], j - NDIRECT - 1)
  }

  /** The slot that holds file block bn. */
  function SlotOf(bn: nat): nat {
    if bn < NDIRECT then bn else bn + 1
  }

  datatype Owner = Owner(ino: nat, slot: nat)

  predicate Shaped(img: Img) {
    && |img.bitmap| == |img.data| < 0x1_0000_0000
    && forall i :: 0 <= i < |img.ino| ==> |img.ino[i].addrs| == NDIRECT + 1 && img.ino[i].addrs[NDIRECT] < |img.data|
  }

  /** owner is the inverse of SlotVal: every named block is named once, lies in the data area, and
      exactly the metadata blocks and the named blocks are marked in the bitmap. */
  ghost predicate Owned(img: Img, meta: nat, owner: map<nat, Owner>) {
    && Shaped(img)
    && 1 <= meta <= |img.data|
    && (forall i, j :: 0 <= i < |img.ino| && 0 <= j < NSLOTS && SlotVal(img, i, j) != 0 ==>
          SlotVal(img, i, j) in owner && owner[SlotVal(img, i, j)] == Owner(i, j))
    && (forall b :: b in owner ==> OwnedAt(img, meta, b, owner[b]))
    && (forall b :: 0 <= b < |img.data| ==> (img.bitmap[b] <==> b < meta || b in owner))
  }

  ghost predicate OwnedAt(img: Img, meta: nat, b: nat, o: Owner)
    requires Shaped(img)
  {
    meta <= b < |img.data| && o.ino < |img.ino| && o.slot < NSLOTS && SlotVal(img, o.ino, o.slot) == b
  }

  /** Every block below the file size is mapped. */
  ghost predicate Mapped(img: Img)
    requires Shaped(img)
  {
    forall i :: 0 <= i < |img.ino| ==> MappedUpTo(img, i, img.ino[i].size)
  }

  ghost predicate MappedUpTo(img: Img, i: nat, size: nat)
    requires Shaped(img) && i < |img.ino|
  {
    size <= MAXFILE * BSIZE && forall bn :: 0 <= bn < MAXFILE && bn * BSIZE < size ==> SlotVal(img, i, SlotOf(bn)) != 0
  }

  ghost predicate Consistent(img: Img, meta: nat, owner: map<nat, Owner>) {
    Shaped(img) && Owned(img, meta, owner) && Mapped(img)
  }

  // ---------------------------------------------------------------- files as byte sequences

  /** Byte k of the blocks of inode i, mapped or not. */
  function ByteAt(img: Img, i: nat, k: nat): Byte
    requires Shaped(img) && i < |img.ino| && k < MAXFILE * BSIZE
  {
    var b := SlotVal(img, i, SlotOf(k / BSIZE));
    if b < |img.data| then img.data[b][k % BSIZE] else 0
  }

  function Content(img: Img, i: nat): (s: seq<Byte>)
    requires Shaped(img) && i < |img.ino| && img.ino[i].size <= MAXFILE * BSIZE
    ensures |s| == img.ino[i].size
  {
    seq(img.ino[i].size, k requires 0 <= k < img.ino[i].size => ByteAt(img, i, k))
  }

  // ---------------------------------------------------------------- the three changes fs.c makes

  /** Block b, free before, becomes slot j of inode i: its bitmap bit is set, it is zeroed, and its
      number is stored. */
  function Attach(img: Img, i: nat, j: nat, b: nat): Img
    requires Shaped(img) && i < |img.ino| && j < NSLOTS && b < |img.data|
  {
    var bitmap, data, ino := img.bitmap[b := true], img.data[b := Zeros()], img.ino[i];
    if j <= NDIRECT then Img(bitmap, data, img.ino[i := ino.(addrs := ino.addrs[j := b])])
    else
      var ind := ino.addrs[NDIRECT];
      Img(bitmap, data[ind := PutWord(data[ind], j - NDIRECT - 1, b)], img.ino)
  }

  predicate CanAttach(img: Img, i: nat, j: nat, b: nat)
    requires Shaped(img)
  {
    && i < |img.ino| && j < NSLOTS && b < |img.data| && !img.bitmap[b] && SlotVal(img, i, j) == 0
    && (j > NDIRECT ==> img.ino[i].addrs[NDIRECT] != 0)
  }

  /** An indirect block is no other slot's block. */
  lemma IndirectApart(img: Img, meta: nat, owner: map<nat, Owner>, i: nat, i': nat, j': nat)
    requires Owned(img, meta, owner) && i < |img.ino| && i' < |img.ino| && j' < NSLOTS
    requires img.ino[i].addrs[NDIRECT] != 0 && SlotVal(img, i', j') == img.ino[i].addrs[NDIRECT]
    ensures i' == i && j' == NDIRECT
  {
    assert SlotVal(img, i, NDIRECT) == img.ino[i].addrs[NDIRECT];
  }

  lemma AttachSlots(img: Img, meta: nat, owner: map<nat, Owner>, i: nat, j: nat, b: nat, i': nat, j': nat)
    requires Owned(img, meta, owner) && CanAttach(img, i, j, b) && i' < |img.ino| && j' < NSLOTS
    ensures Shaped(Attach(img, i, j, b)) && b !in owner && meta <= b
    ensures SlotVal(Attach(img, i, j, b), i', j') == if i' == i && j' == j then b else SlotVal(img, i', j')
  {
    var ind := img.ino[i'].addrs[NDIRECT];
    assert SlotVal(img, i', NDIRECT) == ind;
    if j > NDIRECT {
      assert SlotVal(img, i, NDIRECT) == img.ino[i].addrs[NDIRECT];
      if j' > NDIRECT && i' == i {
        GetPut(img.data[ind], j - NDIRECT - 1, b, j' - NDIRECT - 1);
      } else if ind == img.ino[i].addrs[NDIRECT] && ind != 0 {
        IndirectApart(img, meta, owner, i, i', NDIRECT);
      }
    } else if j' > NDIRECT {
      GetZeros(j' - NDIRECT - 1);
    }
  }

  lemma AttachOwned(img: Img, meta: nat, owner: map<nat, Owner>, i: nat, j: nat, b: nat)
    requires Owned(img, meta, owner) && CanAttach(img, i, j, b)
    ensures Owned(Attach(img, i, j, b), meta, owner[b := Owner(i, j)])
  {
    hide Attach, SlotVal;
    var img', owner' := Attach(img, i, j, b), owner[b := Owner(i, j)];
    AttachSlots(img, meta, owner, i, j, b, i, j);
    AttachRest(img, i, j, b);
    forall i', j' | 0 <= i' < |img'.ino| && 0 <= j' < NSLOTS && SlotVal(img', i', j') != 0
      ensures SlotVal(img', i', j') in owner' && owner'[SlotVal(img', i', j')] == Owner(i', j')
    {
      AttachSlots(img, meta, owner, i, j, b, i', j');
    }
    forall b' | b' in owner' ensures OwnedAt(img', meta, b', owner'[b']) {
      if b' != b {
        assert OwnedAt(img, meta, b', owner[b']);
        AttachSlots(img, meta, owner, i, j, b, owner[b'].ino, owner[b'].slot);
      }
    }
  }

  lemma AttachRest(img: Img, i: nat, j: nat, b: nat)
    requires Shaped(img) && i < |img.ino| && j < NSLOTS && b < |img.data|
    ensures var img' := Attach(img, i, j, b);
            && img'.bitmap == img.bitmap[b := true] && |img'.ino| == |img.ino| && |img'.data| == |img.data|
            && forall k :: 0 <= k < |img.ino| ==> img'.ino[k].size == img.ino[k].size
  {
  }

  /** Attaching a block where none was mapped leaves every mapped byte of every file alone. */
  lemma AttachBytes(img: Img, meta: nat, owner: map<nat, Owner>, i: nat, j: nat, b: nat, i': nat, k: nat)
    requires Owned(img, meta, owner) && CanAttach(img, i, j, b) && i' < |img.ino| && k < MAXFILE * BSIZE
    requires SlotVal(img, i', SlotOf(k / BSIZE)) != 0
    ensures Shaped(Attach(img, i, j, b))
    ensures ByteAt(Attach(img, i, j, b), i', k) == ByteAt(img, i', k)
  {
    AttachSlots(img, meta, owner, i, j, b, i', SlotOf(k / BSIZE));
    var b' := SlotVal(img, i', SlotOf(k / BSIZE));
    assert b' in owner && b' != b;
    if j > NDIRECT && b' == img.ino[i].addrs[NDIRECT] {
      IndirectApart(img, meta, owner, i, i', SlotOf(k / BSIZE));
    }
  }

  lemma AttachFiles(img: Img, meta: nat, owner: map<nat, Owner>, i: nat, j: nat, b: nat)
    requires Consistent(img, meta, owner) && CanAttach(img, i, j, b)
    ensures Consistent(Attach(img, i, j, b), meta, owner[b := Owner(i, j)])
    ensures forall f :: 0 <= f < |img.ino| ==> Content(Attach(img, i, j, b), f) == Content(img, f)
  {
    hide Attach, SlotVal, ByteAt;
    var img' := Attach(img, i, j, b);
    AttachOwned(img, meta, owner, i, j, b);
    AttachRest(img, i, j, b);
    forall f | 0 <= f < |img.ino| ensures MappedUpTo(img', f, img'.ino[f].size) && Content(img', f) == Content(img, f) {
      assert MappedUpTo(img, f, img.ino[f].size);
      forall bn | 0 <= bn < MAXFILE && bn * BSIZE < img.ino[f].size ensures SlotVal(img', f, SlotOf(bn)) != 0 {
        AttachSlots(img, meta, owner, i, j, b, f, SlotOf(bn));
      }
      forall k | 0 <= k < img.ino[f].size ensures ByteAt(img', f, k) == ByteAt(img, f, k) {
        AttachBytes(img, meta, owner, i, j, b, f, k);
      }
    }
  }

  function Splice(b: Block, o: nat, bytes: seq<Byte>): Block
    requires o + |bytes| <= BSIZE
  {
    b[..o] + bytes + b[o + |bytes|..]
  }

  /** bytes are written at offset o of block b. */
  function Put(img: Img, b: nat, o: nat, bytes: seq<Byte>): Img
    requires b < |img.data| && o + |bytes| <= BSIZE
  {
    img.(data := img.data[b := Splice(img.data[b], o, bytes)])
  }

  lemma PutSlots(img: Img, meta: nat, owner: map<nat, Owner>, b: nat, o: nat, bytes: seq<Byte>, i: nat, j: nat)
    requires Owned(img, meta, owner) && b in owner && owner[b].slot != NDIRECT && o + |bytes| <= BSIZE
    requires i < |img.ino| && j < NSLOTS
    ensures b < |img.data| && Shaped(Put(img, b, o, bytes)) && SlotVal(Put(img, b, o, bytes), i, j) == SlotVal(img, i, j)
  {
    assert OwnedAt(img, meta, b, owner[b]);
    assert SlotVal(img, i, NDIRECT) == img.ino[i].addrs[NDIRECT];
  }

  /** A write inside one block changes the bytes of the one file block that owns it. */
  lemma PutBytes(img: Img, meta: nat, owner: map<nat, Owner>, b: nat, o: nat, bytes: seq<Byte>, i: nat, k: nat)
    requires Owned(img, meta, owner) && b in owner && owner[b].slot != NDIRECT && o + |bytes| <= BSIZE
    requires i < |img.ino| && k < MAXFILE * BSIZE
    ensures b < |img.data| && Shaped(Put(img, b, o, bytes))
    ensures ByteAt(Put(img, b, o, bytes), i, k) ==
            if owner[b] == Owner(i, SlotOf(k / BSIZE)) && o <= k % BSIZE < o + |bytes| then bytes[k % BSIZE - o]
            else ByteAt(img, i, k)
  {
    PutSlots(img, meta, owner, b, o, bytes, i, SlotOf(k / BSIZE));
    assert OwnedAt(img, meta, b, owner[b]);
  }

  lemma PutConsistent(img: Img, meta: nat, owner: map<nat, Owner>, b: nat, o: nat, bytes: seq<Byte>)
    requires Consistent(img, meta, owner) && b in owner && owner[b].slot != NDIRECT && o + |bytes| <= BSIZE
    ensures b < |img.data| && Consistent(Put(img, b, o, bytes), meta, owner)
    ensures forall f :: 0 <= f < |img.ino| && f != owner[b].ino ==> Content(Put(img, b, o, bytes), f) == Content(img, f)
  {
    hide SlotVal, ByteAt, Splice;
    assert OwnedAt(img, meta, b, owner[b]);
    var img' := Put(img, b, o, bytes);
    forall i, j | 0 <= i < |img.ino| && 0 <= j < NSLOTS ensures SlotVal(img', i, j) == SlotVal(img, i, j) {
      PutSlots(img, meta, owner, b, o, bytes, i, j);
    }
    forall c | c in owner ensures OwnedAt(img', meta, c, owner[c]) {
      assert OwnedAt(img, meta, c, owner[c]);
    }
    forall f | 0 <= f < |img.ino| ensures MappedUpTo(img', f, img'.ino[f].size) {
      assert MappedUpTo(img, f, img.ino[f].size);
    }
    forall f | 0 <= f < |img.ino| && f != owner[b].ino ensures Content(img', f) == Content(img, f) {
      assert MappedUpTo(img, f, img.ino[f].size);
      forall k | 0 <= k < img.ino[f].size ensures ByteAt(img', f, k) == ByteAt(img, f, k) {
        PutBytes(img, meta, owner, b, o, bytes, f, k);
      }
    }
  }

  function Resize(img: Img, i: nat, size: nat): Img
    requires i < |img.ino|
  {
    img.(ino := img.ino[i := Inode(size, img.ino[i].addrs)])
  }

  lemma ResizeConsistent(img: Img, meta: nat, owner: map<nat, Owner>, i: nat, size: nat)
    requires Consistent(img, meta, owner) && i < |img.ino| && MappedUpTo(img, i, size)
    ensures Consistent(Resize(img, i, size), meta, owner)
    ensures forall f, k :: 0 <= f < |img.ino| && 0 <= k < MAXFILE * BSIZE ==>
              ByteAt(Resize(img, i, size), f, k) == ByteAt(img, f, k)
    ensures forall f :: 0 <= f < |img.ino| && f != i ==> Content(Resize(img, i, size), f) == Content(img, f)
  {
    var img' := Resize(img, i, size);
    assert forall f, j :: 0 <= f < |img.ino| && 0 <= j < NSLOTS ==> SlotVal(img', f, j) == SlotVal(img, f, j);
    hide SlotVal;
    forall c | c in owner ensures OwnedAt(img', meta, c, owner[c]) {
      assert OwnedAt(img, meta, c, owner[c]);
    }
    forall f | 0 <= f < |img.ino| ensures MappedUpTo(img', f, img'.ino[f].size) {
      assert MappedUpTo(img, f, img.ino[f].size);
    }
  }

  /** All blocks of inode i are given back and its inode is empty. */
  ghost predicate Truncated(img: Img, img': Img, owner: map<nat, Owner>, i: nat)
    requires i < |img.ino|
  {
    && img'.data == img.data && |img'.bitmap| == |img.bitmap|
    && img'.ino == img.ino[i := Inode(0, seq(NDIRECT + 1, _ => 0))]
    && forall b :: 0 <= b < |img.bitmap| ==> (img'.bitmap[b] <==> img.bitmap[b] && !(b in owner && owner[b].ino == i))
  }

  function OthersOf(owner: map<nat, Owner>, i: nat): map<nat, Owner> {
    map b | b in owner && owner[b].ino != i :: owner[b]
  }

  lemma TruncatedSlots(img: Img, img': Img, owner: map<nat, Owner>, i: nat)
    requires Shaped(img) && |img.data| > 0 && i < |img.ino| && Truncated(img, img', owner, i)
    ensures Shaped(img')
    ensures forall f, j :: 0 <= f < |img.ino| && 0 <= j < NSLOTS ==>
              SlotVal(img', f, j) == if f == i then 0 else SlotVal(img, f, j)
  {
  }

  lemma TruncatedOwned(img: Img, img': Img, meta: nat, owner: map<nat, Owner>, i: nat)
    requires Owned(img, meta, owner) && i < |img.ino| && Truncated(img, img', owner, i)
    ensures Owned(img', meta, OthersOf(owner, i))
  {
    hide SlotVal;
    TruncatedSlots(img, img', owner, i);
    forall c | c in OthersOf(owner, i) ensures OwnedAt(img', meta, c, owner[c]) {
      assert OwnedAt(img, meta, c, owner[c]);
    }
    forall b | 0 <= b < |img.data| ensures img'.bitmap[b] <==> b < meta || b in OthersOf(owner, i) {
      assert b in owner ==> OwnedAt(img, meta, b, owner[b]);
    }
  }

  lemma TruncatedConsistent(img: Img, img': Img, meta: nat, owner: map<nat, Owner>, i: nat)
    requires Consistent(img, meta, owner) && i < |img.ino| && Truncated(img, img', owner, i)
    ensures Consistent(img', meta, OthersOf(owner, i)) && Content(img', i) == []
    ensures forall f :: 0 <= f < |img.ino| && f != i ==> Content(img', f) == Content(img, f)
  {
    hide SlotVal;
    TruncatedOwned(img, img', meta, owner, i);
    TruncatedSlots(img, img', owner, i);
    forall f | 0 <= f < |img.ino| ensures MappedUpTo(img', f, img'.ino[f].size) {
      assert MappedUpTo(img, f, img.ino[f].size);
    }
  }

  // ---------------------------------------------------------------- allocation does not disturb files

  /** img' maps at least what img maps, to the same blocks, with the same bytes and sizes. */
  ghost predicate Extends(img: Img, img': Img)
    requires Shaped(img) && Shaped(img')
  {
    && |img'.ino| == |img.ino| && |img'.data| == |img.data|
    && (forall i :: 0 <= i < |img.ino| ==> img'.ino[i].size == img.ino[i].size)
    && (forall i, j :: 0 <= i < |img.ino| && 0 <= j < NSLOTS && SlotVal(img, i, j) != 0 ==>
          SlotVal(img', i, j) == SlotVal(img, i, j))
    && (forall i, k :: 0 <= i < |img.ino| && 0 <= k < MAXFILE * BSIZE && SlotVal(img, i, SlotOf(k / BSIZE)) != 0 ==>
          ByteAt(img', i, k) == ByteAt(img, i, k))
  }

  lemma ExtendsTwice(a: Img, b: Img, c: Img)
    requires Shaped(a) && Shaped(b) && Shaped(c) && Extends(a, b) && Extends(b, c)
    ensures Extends(a, c)
  {
    hide SlotVal, ByteAt;
  }

  lemma AttachExtends(img: Img, meta: nat, owner: map<nat, Owner>, i: nat, j: nat, b: nat)
    requires Consistent(img, meta, owner) && CanAttach(img, i, j, b)
    ensures Consistent(Attach(img, i, j, b), meta, owner[b := Owner(i, j)])
    ensures SlotVal(Attach(img, i, j, b), i, j) == b
    ensures Extends(img, Attach(img, i, j, b))
  {
    hide Attach, SlotVal, ByteAt, MappedUpTo;
    AttachFiles(img, meta, owner, i, j, b);
    AttachRest(img, i, j, b);
    AttachSlots(img, meta, owner, i, j, b, i, j);
    var img' := Attach(img, i, j, b);
    forall i', j' | 0 <= i' < |img.ino| && 0 <= j' < NSLOTS && SlotVal(img, i', j') != 0
      ensures SlotVal(img', i', j') == SlotVal(img, i', j')
    {
      AttachSlots(img, meta, owner, i, j, b, i', j');
    }
    forall i', k | 0 <= i' < |img.ino| && 0 <= k < MAXFILE * BSIZE && SlotVal(img, i', SlotOf(k / BSIZE)) != 0
      ensures ByteAt(img', i', k) == ByteAt(img, i', k)
    {
      AttachBytes(img, meta, owner, i, j, b, i', k);
    }
  }

  lemma ExtendsContent(img: Img, img': Img, meta: nat, owner: map<nat, Owner>, f: nat)
    requires Consistent(img, meta, owner) && Shaped(img') && Extends(img, img') && f < |img.ino|
    ensures img'.ino[f].size <= MAXFILE * BSIZE && Content(img', f) == Content(img, f)
  {
    hide SlotVal, ByteAt;
    assert MappedUpTo(img, f, img.ino[f].size);
  }
}
