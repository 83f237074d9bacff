/** What processes see through page-table entries and frames, and what a write to a frame does to it. */
module CowView {
  import opened Basics
  import opened CowFrames
  import opened EagerFork

  /** A COW entry stands for a writable one. */
  function Seen(f: Flags): Flags {
    f.(w := f.w || f.rsw, rsw := false)
  }

  /** What the processes see. */
  function ViewOf(ptes: map<Slot, Pte>, pages: seq<Page>): Pages {
    map k | k in ptes && ptes[k].frame < |pages| :: EPage(pages[ptes[k].frame], Seen(ptes[k].flags))
  }

  lemma ViewUnmapped(ptes: map<Slot, Pte>, pages: seq<Page>, f: nat, data: Page)
    requires f < |pages| && forall k :: k in ptes ==> ptes[k].frame != f
    ensures ViewOf(ptes, pages[f := data]) == ViewOf(ptes, pages)
  {
  }

  lemma ViewRemove(ptes: map<Slot, Pte>, pages: seq<Page>, k: Slot)
    ensures ViewOf(ptes - {k}, pages) == ViewOf(ptes, pages) - {k}
  {
  }

  lemma ViewPut(ptes: map<Slot, Pte>, pages: seq<Page>, k: Slot, pte: Pte)
    requires pte.frame < |pages|
    ensures ViewOf(ptes[k := pte], pages) == ViewOf(ptes, pages)[k := EPage(pages[pte.frame], Seen(pte.flags))]
  {
  }

  lemma WriteSole(refcnt: seq<nat>, free: seq<nat>, ptes: map<Slot, Pte>, held: set<nat>, pages: seq<Page>,
                  k: Slot, data: Page)
    requires Counted(refcnt, free, ptes, held) && |pages| == |refcnt| && k in ptes && refcnt[ptes[k].frame] == 1
    ensures ViewOf(ptes, pages[ptes[k].frame := data]) == ViewOf(ptes, pages)[k := EPage(data, Seen(ptes[k].flags))]
  {
    forall j | j in ptes && j != k ensures ptes[j].frame != ptes[k].frame {
      if ptes[j].frame == ptes[k].frame { SoleMapper(refcnt, free, ptes, held, k, j); }
    }
  }

  lemma AnotherMapper(refcnt: seq<nat>, free: seq<nat>, ptes: map<Slot, Pte>, held: set<nat>, k: Slot) returns (j: Slot)
    requires Counted(refcnt, free, ptes, held) && k in ptes && refcnt[ptes[k].frame] != 1
    ensures j != k && j in ptes && ptes[j].frame == ptes[k].frame
  {
    var ms := Mappers(ptes, ptes[k].frame);
    assert k in ms;
    assert |ms - {k}| == |ms| - 1 > 0;
    j :| j in ms - {k};
  }

  lemma ViewKeys(refcnt: seq<nat>, free: seq<nat>, ptes: map<Slot, Pte>, held: set<nat>, pages: seq<Page>)
    requires Accounted(refcnt, free, ptes, held) && |pages| == |refcnt|
    ensures ViewOf(ptes, pages).Keys == ptes.Keys
  {
  }

  lemma InView(ptes: map<Slot, Pte>, pages: seq<Page>, k: Slot)
    ensures k in ViewOf(ptes, pages) ==> k in ptes
  {
  }

  lemma ViewAt(ptes: map<Slot, Pte>, pages: seq<Page>, k: Slot)
    requires k in ptes && ptes[k].frame < |pages|
    ensures k in ViewOf(ptes, pages)
    ensures ViewOf(ptes, pages)[k] == EPage(pages[ptes[k].frame], Seen(ptes[k].flags))
  {
  }

  // ---------------------------------------------------------------- writing through read-only entries

  /** Only the same page of different processes shares a frame. */
  ghost predicate Aligned(ptes: map<Slot, Pte>) {
    forall j, k :: j in ptes && k in ptes && ptes[j].frame == ptes[k].frame ==> j.page == k.page
  }

  /** j shares the frame of the read-only page of p with its number. */
  predicate SharesReadOnly(ptes: map<Slot, Pte>, p: nat, j: Slot) {
    var k := Slot(p, j.page);
    j in ptes && k in ptes && ptes[j].frame == ptes[k].frame && !Seen(ptes[k].flags).w
  }

  /** What copyout really does with bytes at dst of p: the read-only pages of p are written together with every
      page that shares their frames. */
  ghost function Smear(w: Pages, ptes: map<Slot, Pte>, p: nat, dst: nat, bytes: seq<Byte>): Pages {
    map k | k in w ::
      if k.pid == p || SharesReadOnly(ptes, p, k) then EPage(Patch(w[k].data, k.page * PGSIZE, dst, bytes), w[k].flags)
      else w[k]
  }

  /** What loads tell of it. */
  ghost predicate Smeared(w: Pages, w': Pages, ptes: map<Slot, Pte>, p: nat, dst: nat, bytes: seq<Byte>) {
    && w'.Keys == w.Keys && (forall k :: k in w ==> w'[k].flags == w[k].flags)
    && forall q: nat, a: nat :: Slot(q, a / PGSIZE) in w ==>
         Load(w', q, a) ==
         if (q == p || SharesReadOnly(ptes, p, Slot(q, a / PGSIZE))) && dst <= a < dst + |bytes| then bytes[a - dst]
         else Load(w, q, a)
  }

  lemma SmearStores(w: Pages, ptes: map<Slot, Pte>, p: nat, dst: nat, bytes: seq<Byte>)
    ensures Smeared(w, Smear(w, ptes, p, dst, bytes), ptes, p, dst, bytes)
  {
    hide SharesReadOnly;
  }

  lemma SmearNothing(w: Pages, ptes: map<Slot, Pte>, p: nat, dst: nat)
    ensures Smear(w, ptes, p, dst, []) == w
  {
    hide SharesReadOnly;
    assert forall k: Slot :: k in w ==> Patch(w[k].data, k.page * PGSIZE, dst, []) == w[k].data;
  }

  /** Two pieces one after the other, with the same sharing of read-only pages. */
  lemma SmearTwice(w: Pages, ptes: map<Slot, Pte>, ptes': map<Slot, Pte>, p: nat, dst: nat, a: seq<Byte>, b: seq<Byte>)
    requires forall j: Slot :: SharesReadOnly(ptes', p, j) == SharesReadOnly(ptes, p, j)
    ensures Smear(Smear(w, ptes, p, dst, a), ptes', p, dst + |a|, b) == Smear(w, ptes, p, dst, a + b)
  {
    hide SharesReadOnly, Patch;
    forall k | k in w
      ensures Patch(Patch(w[k].data, k.page * PGSIZE, dst, a), k.page * PGSIZE, dst + |a|, b) ==
              Patch(w[k].data, k.page * PGSIZE, dst, a + b)
    {
      PatchTwice(w[k].data, k.page * PGSIZE, dst, a, b);
    }
  }

  /** A piece that lies in page v leaves other pages alone. */
  lemma PatchOutside(page: Page, v: nat, dst: nat, bytes: seq<Byte>)
    requires dst % PGSIZE + |bytes| <= PGSIZE && v != dst / PGSIZE
    ensures Patch(page, v * PGSIZE, dst, bytes) == page
  {
    assert v < dst / PGSIZE ==> v * PGSIZE + PGSIZE <= dst;
    assert v > dst / PGSIZE ==> v * PGSIZE >= dst + |bytes|;
  }

  /** On a page that p may write nothing is smeared. */
  lemma SmearWritable(w: Pages, ptes: map<Slot, Pte>, p: nat, dst: nat, bytes: seq<Byte>)
    requires dst % PGSIZE + |bytes| <= PGSIZE
    requires SlotOf(p, dst) in ptes && Seen(ptes[SlotOf(p, dst)].flags).w
    ensures Smear(w, ptes, p, dst, bytes) == Write(w, p, dst, bytes)
  {
    hide Patch;
    forall k | k in w && k.pid != p && SharesReadOnly(ptes, p, k)
      ensures Patch(w[k].data, k.page * PGSIZE, dst, bytes) == w[k].data
    {
      PatchOutside(w[k].data, k.page, dst, bytes);
    }
  }

  /** Writing the frame of a read-only page of p. */
  lemma SmearFrame(ptes: map<Slot, Pte>, pages: seq<Page>, p: nat, dst: nat, bytes: seq<Byte>)
    requires dst % PGSIZE + |bytes| <= PGSIZE && Aligned(ptes)
    requires var k := SlotOf(p, dst); k in ptes && ptes[k].frame < |pages| && !Seen(ptes[k].flags).w
    ensures var k := SlotOf(p, dst);
            var f := ptes[k].frame;
            ViewOf(ptes, pages[f := Patch(pages[f], k.page * PGSIZE, dst, bytes)]) ==
            Smear(ViewOf(ptes, pages), ptes, p, dst, bytes)
  {
    hide Patch;
    var k := SlotOf(p, dst);
    var f := ptes[k].frame;
    var w, w' := ViewOf(ptes, pages), ViewOf(ptes, pages[f := Patch(pages[f], k.page * PGSIZE, dst, bytes)]);
    forall j | j in w ensures w'[j] == Smear(w, ptes, p, dst, bytes)[j] {
      if j.page != k.page {
        PatchOutside(w[j].data, j.page, dst, bytes);
      }
    }
  }

  function Refs(refcnt: seq<nat>, pte: Pte): nat {
    if pte.frame < |refcnt| then refcnt[pte.frame] else 0
  }

  /** The bytes change no read-only page of p that is shared. */
  predicate Harmless(ptes: map<Slot, Pte>, refcnt: seq<nat>, pages: seq<Page>, p: nat, dst: nat, bytes: seq<Byte>) {
    forall k :: k in ptes && k.pid == p && !Seen(ptes[k].flags).w && ptes[k].frame < |pages| ==>
      Refs(refcnt, ptes[k]) == 1 || Patch(pages[ptes[k].frame], k.page * PGSIZE, dst, bytes) == pages[ptes[k].frame]
  }

  /** Copyout does what eager copying would if and only if every read-only page of p that it changes is shared
      with nobody. */
  lemma CopyoutExact(refcnt: seq<nat>, free: seq<nat>, ptes: map<Slot, Pte>, held: set<nat>, pages: seq<Page>,
                     p: nat, dst: nat, bytes: seq<Byte>)
    requires Accounted(refcnt, free, ptes, held) && |pages| == |refcnt| && Aligned(ptes)
    ensures var w := ViewOf(ptes, pages);
            Smear(w, ptes, p, dst, bytes) == Write(w, p, dst, bytes) <==> Harmless(ptes, refcnt, pages, p, dst, bytes)
  {
    hide Patch, Counted;
    var w := ViewOf(ptes, pages);
    FramesIn(refcnt, free, ptes, held);
    if Harmless(ptes, refcnt, pages, p, dst, bytes) {
      forall j | j in w && j.pid != p && SharesReadOnly(ptes, p, j)
        ensures Patch(w[j].data, j.page * PGSIZE, dst, bytes) == w[j].data
      {
        var k := Slot(p, j.page);
        if refcnt[ptes[k].frame] == 1 {
          SoleMapper(refcnt, free, ptes, held, k, j);
        }
      }
    } else {
      var k :| k in ptes && k.pid == p && !Seen(ptes[k].flags).w && refcnt[ptes[k].frame] != 1 &&
               Patch(pages[ptes[k].frame], k.page * PGSIZE, dst, bytes) != pages[ptes[k].frame];
      var j := AnotherMapper(refcnt, free, ptes, held, k);
      assert k == Slot(p, j.page) && SharesReadOnly(ptes, p, j);
      assert Smear(w, ptes, p, dst, bytes)[j] != Write(w, p, dst, bytes)[j];
    }
  }

  lemma FramesIn(refcnt: seq<nat>, free: seq<nat>, ptes: map<Slot, Pte>, held: set<nat>)
    requires Counted(refcnt, free, ptes, held)
    ensures forall k :: k in ptes ==> ptes[k].frame < |refcnt|
  {
  }

  // ---------------------------------------------------------------- how changes keep the alignment

  lemma AlignedRemove(ptes: map<Slot, Pte>, k: Slot)
    requires Aligned(ptes)
    ensures Aligned(ptes - {k})
  {
  }

  /** A new flag, a frame nobody maps, or the frame of the same page of another process. */
  lemma AlignedPut(ptes: map<Slot, Pte>, k: Slot, pte: Pte)
    requires Aligned(ptes) && forall j :: j in ptes && j != k && ptes[j].frame == pte.frame ==> j.page == k.page
    ensures Aligned(ptes[k := pte])
  {
  }

  /** Giving a page of p that it may write a private frame does not change who shares its read-only pages. */
  lemma SharesKept(ptes: map<Slot, Pte>, k: Slot, pte: Pte)
    requires k in ptes && Seen(ptes[k].flags).w && Seen(pte.flags).w
    ensures forall j: Slot :: SharesReadOnly(ptes[k := pte], k.pid, j) == SharesReadOnly(ptes, k.pid, j)
  {
  }

  lemma AlignedSame(ptes: map<Slot, Pte>, k: Slot, k': Slot, flags: Flags)
    requires Aligned(ptes) && k in ptes && k'.page == k.page
    ensures Aligned(ptes[k' := Pte(ptes[k].frame, flags)])
  {
  }

  lemma FrameOf(refcnt: seq<nat>, free: seq<nat>, ptes: map<Slot, Pte>, held: set<nat>, k: Slot)
    requires Accounted(refcnt, free, ptes, held) && k in ptes
    ensures ptes[k].frame < |refcnt| && refcnt[ptes[k].frame] > 0
    ensures ptes[k].flags.w ==> refcnt[ptes[k].frame] == 1 && !ptes[k].flags.rsw
  {
    assert k in Mappers(ptes, ptes[k].frame);
  }

  /** Setting the count of a frame nobody maps. */
  lemma RefsElsewhere(was: seq<nat>, now: seq<nat>, ptes: map<Slot, Pte>, f: nat, n: nat)
    requires f < |was| && now == was[f := n] && forall k :: k in ptes ==> ptes[k].frame != f
    ensures forall k :: k in ptes ==> Refs(now, ptes[k]) == Refs(was, ptes[k])
  {
  }

  /** Dropping a reference of page k concerns no page with another number. */
  lemma RefsDropped(was: seq<nat>, now: seq<nat>, ptes: map<Slot, Pte>, k: Slot)
    requires Aligned(ptes) && k in ptes && ptes[k].frame < |was| && was[ptes[k].frame] > 0
    requires now == Dropped(was, ptes[k].frame)
    ensures forall j :: j in ptes && j.page != k.page ==> Refs(now, ptes[j]) == Refs(was, ptes[j])
  {
  }

  /** PTE_W set and PTE_RSW cleared. */
  function Granted(f: Flags): Flags {
    f.(w := true, rsw := false)
  }

  // ---------------------------------------------------------------- copies that writing takes

  /** Writing page k takes a copy: it is a COW page of the user, on a shared frame. */
  predicate Copies(ptes: map<Slot, Pte>, refcnt: seq<nat>, k: Slot) {
    k in ptes && ptes[k].flags.u && ptes[k].flags.rsw && Refs(refcnt, ptes[k]) > 1
  }

  /** How many copies a copyout of n bytes to dst takes, up to the first page it cannot translate. */
  function CopiesFor(ptes: map<Slot, Pte>, refcnt: seq<nat>, p: nat, dst: nat, n: nat): nat
    decreases n
  {
    var k := SlotOf(p, dst);
    if n == 0 || k !in ptes || !ptes[k].flags.u then 0
    else
      var m := PGSIZE - dst % PGSIZE;
      (if Copies(ptes, refcnt, k) then 1 else 0) + (if n <= m then 0 else CopiesFor(ptes, refcnt, p, dst + m, n - m))
  }

  /** How many pages n bytes at dst touch. */
  function Touched(dst: nat, n: nat): nat
    decreases n
  {
    var m := PGSIZE - dst % PGSIZE;
    if n == 0 then 0 else if n <= m then 1 else 1 + Touched(dst + m, n - m)
  }

  lemma {:induction false} CopiesBound(ptes: map<Slot, Pte>, refcnt: seq<nat>, p: nat, dst: nat, n: nat)
    ensures CopiesFor(ptes, refcnt, p, dst, n) <= Touched(dst, n)
    decreases n
  {
    hide Copies;
    var m := PGSIZE - dst % PGSIZE;
    if n > m {
      CopiesBound(ptes, refcnt, p, dst + m, n - m);
    }
  }

  lemma ViewFlags(refcnt: seq<nat>, free: seq<nat>, ptes: map<Slot, Pte>, held: set<nat>, pages: seq<Page>)
    requires Accounted(refcnt, free, ptes, held) && |pages| == |refcnt|
    ensures var w := ViewOf(ptes, pages);
            w.Keys == ptes.Keys && forall k :: k in ptes ==> w[k].flags == Seen(ptes[k].flags)
  {
  }

  lemma StoreFacts(refcnt: seq<nat>, free: seq<nat>, ptes: map<Slot, Pte>, held: set<nat>, pages: seq<Page>, k: Slot)
    requires Accounted(refcnt, free, ptes, held) && |pages| == |refcnt|
    ensures k in ptes <==> k in ViewOf(ptes, pages)
    ensures k in ptes ==>
              && ViewOf(ptes, pages)[k].flags == Seen(ptes[k].flags) && Refs(refcnt, ptes[k]) >= 1
              && !(ptes[k].flags.w && ptes[k].flags.rsw)
  {
    if k in ptes {
      FrameOf(refcnt, free, ptes, held, k);
    }
  }

  /** One round of copyout in the first state: how far it reaches and how many copies it takes from here on. */
  lemma CopyRound(ptes: map<Slot, Pte>, refcnt: seq<nat>, w: Pages, p: nat, d: nat, n: nat, m: nat)
    requires w.Keys == ptes.Keys && forall k :: k in ptes ==> w[k].flags == Seen(ptes[k].flags)
    requires 0 < n && m == if PGSIZE - d % PGSIZE > n then n else PGSIZE - d % PGSIZE
    ensures var k := SlotOf(p, d);
            if k in ptes && ptes[k].flags.u then
              && Reach(w, p, d, n) == m + Reach(w, p, d + m, n - m)
              && CopiesFor(ptes, refcnt, p, d, n) ==
                 (if Copies(ptes, refcnt, k) then 1 else 0) + CopiesFor(ptes, refcnt, p, d + m, n - m)
            else Reach(w, p, d, n) == 0 && CopiesFor(ptes, refcnt, p, d, n) == 0
  {
    hide Copies;
  }

  lemma CopyEnd(ptes: map<Slot, Pte>, refcnt: seq<nat>, w: Pages, p: nat, d: nat)
    ensures Reach(w, p, d, 0) == 0 && CopiesFor(ptes, refcnt, p, d, 0) == 0
  {
  }

  /** From page v on, entries and their counts are as they were. */
  ghost predicate Untouched(was: map<Slot, Pte>, refs: seq<nat>, now: map<Slot, Pte>, refs': seq<nat>, v: nat) {
    forall j :: j in was && j.page >= v ==> j in now && now[j] == was[j] && Refs(refs', now[j]) == Refs(refs, was[j])
  }

  lemma UntouchedSelf(ptes: map<Slot, Pte>, refs: seq<nat>, v: nat)
    ensures Untouched(ptes, refs, ptes, refs, v)
  {
  }

  lemma UntouchedAt(was: map<Slot, Pte>, refs: seq<nat>, now: map<Slot, Pte>, refs': seq<nat>, k: Slot)
    requires Untouched(was, refs, now, refs', k.page) && was.Keys == now.Keys
    ensures k in was ==> now[k] == was[k]
    ensures Copies(now, refs', k) == Copies(was, refs, k)
  {
  }

  lemma UntouchedNext(was: map<Slot, Pte>, refs: seq<nat>, now: map<Slot, Pte>, refs': seq<nat>,
                      after: map<Slot, Pte>, refs'': seq<nat>, d: nat, m: nat, n: nat)
    requires Untouched(was, refs, now, refs', d / PGSIZE) && was.Keys == now.Keys == after.Keys
    requires forall j :: j in after && j.page != d / PGSIZE ==>
               after[j] == now[j] && Refs(refs'', after[j]) == Refs(refs', after[j])
    requires m == if PGSIZE - d % PGSIZE > n then n else PGSIZE - d % PGSIZE
    ensures m == n || Untouched(was, refs, after, refs'', (d + m) / PGSIZE)
  {
  }

  /** What one round of copyout does, inside the page of d. */
  ghost predicate PageCopied(ptes: map<Slot, Pte>, refs: seq<nat>, w: Pages, free: nat,
                             ptes': map<Slot, Pte>, refs': seq<nat>, w': Pages, free': nat,
                             p: nat, d: nat, chunk: seq<Byte>, ok: bool)
  {
    var k := SlotOf(p, d);
    && (ok <==> k in ptes && ptes[k].flags.u && !(Copies(ptes, refs, k) && free == 0))
    && free' == free - (if ok && Copies(ptes, refs, k) then 1 else 0)
    && w' == (if ok then Smear(w, ptes, p, d, chunk) else w)
    && (forall j: Slot :: SharesReadOnly(ptes', p, j) == SharesReadOnly(ptes, p, j))
    && (forall j :: j in ptes' && j.page != d / PGSIZE ==>
          j in ptes && ptes'[j] == ptes[j] && Refs(refs', ptes'[j]) == Refs(refs, ptes'[j]))
  }

  /** Where copyout stands after n bytes, in terms of the state it began in. */
  ghost predicate Copying(ptes0: map<Slot, Pte>, refs0: seq<nat>, w0: Pages, free0: nat,
                          ptes: map<Slot, Pte>, refs: seq<nat>, w: Pages, free: nat,
                          p: nat, dst: nat, src: seq<Byte>, n: nat)
  {
    && n <= |src| && ptes.Keys == ptes0.Keys
    && w == Smear(w0, ptes0, p, dst, src[..n])
    && (forall j: Slot :: SharesReadOnly(ptes, p, j) == SharesReadOnly(ptes0, p, j))
    && (n == |src| || Untouched(ptes0, refs0, ptes, refs, (dst + n) / PGSIZE))
    && Reach(w0, p, dst, |src|) == n + Reach(w0, p, dst + n, |src| - n)
    && free0 + CopiesFor(ptes0, refs0, p, dst + n, |src| - n) == free + CopiesFor(ptes0, refs0, p, dst, |src|)
  }

  lemma CopyingStart(ptes: map<Slot, Pte>, refs: seq<nat>, w: Pages, free: nat, p: nat, dst: nat, src: seq<Byte>)
    ensures Copying(ptes, refs, w, free, ptes, refs, w, free, p, dst, src, 0)
  {
    hide Smear, SharesReadOnly, CopiesFor, Reach;
    SmearNothing(w, ptes, p, dst);
    assert src[..0] == [];
    UntouchedSelf(ptes, refs, dst / PGSIZE);
  }

  lemma {:induction false} CopyingNext(ptes0: map<Slot, Pte>, refs0: seq<nat>, w0: Pages, free0: nat,
                    ptes: map<Slot, Pte>, refs: seq<nat>, w: Pages, free: nat,
                    ptes': map<Slot, Pte>, refs': seq<nat>, w': Pages, free': nat,
                    p: nat, dst: nat, src: seq<Byte>, n: nat, m: nat, ok: bool)
    requires w0.Keys == ptes0.Keys && forall k :: k in ptes0 ==> w0[k].flags == Seen(ptes0[k].flags)
    requires Copying(ptes0, refs0, w0, free0, ptes, refs, w, free, p, dst, src, n) && n < |src| && ptes'.Keys == ptes.Keys
    requires m == if PGSIZE - (dst + n) % PGSIZE > |src| - n then |src| - n else PGSIZE - (dst + n) % PGSIZE
    requires PageCopied(ptes, refs, w, free, ptes', refs', w', free', p, dst + n, src[n..n + m], ok)
    ensures ok ==> Copying(ptes0, refs0, w0, free0, ptes', refs', w', free', p, dst, src, n + m)
    ensures !ok ==> w' == Smear(w0, ptes0, p, dst, src[..n]) && n <= Reach(w0, p, dst, |src|)
    ensures !ok ==> (n == Reach(w0, p, dst, |src|) <==> free0 >= CopiesFor(ptes0, refs0, p, dst, |src|))
    ensures !ok ==> free' + CopiesFor(ptes0, refs0, p, dst, |src|) >= free0
  {
    hide Smear, SharesReadOnly, CopiesFor, Reach, Copies, Untouched, Refs;
    CopyRound(ptes0, refs0, w0, p, dst + n, |src| - n, m);
    UntouchedAt(ptes0, refs0, ptes, refs, SlotOf(p, dst + n));
    if ok {
      SmearTwice(w0, ptes0, ptes, p, dst, src[..n], src[n..n + m]);
      assert src[..n] + src[n..n + m] == src[..n + m];
      UntouchedNext(ptes0, refs0, ptes, refs, ptes', refs', dst + n, m, |src| - n);
    }
  }

  lemma CopyingEnd(ptes0: map<Slot, Pte>, refs0: seq<nat>, w0: Pages, free0: nat,
                   ptes: map<Slot, Pte>, refs: seq<nat>, w: Pages, free: nat, p: nat, dst: nat, src: seq<Byte>)
    requires Copying(ptes0, refs0, w0, free0, ptes, refs, w, free, p, dst, src, |src|)
    ensures w == Smear(w0, ptes0, p, dst, src[..|src|]) && Reach(w0, p, dst, |src|) == |src|
    ensures free0 >= CopiesFor(ptes0, refs0, p, dst, |src|) && free + CopiesFor(ptes0, refs0, p, dst, |src|) >= free0
  {
    CopyEnd(ptes0, refs0, w0, p, dst + |src|);
    hide Smear, SharesReadOnly, CopiesFor, Reach;
  }

  // ---------------------------------------------------------------- the cost of operations

  function Sum(s: seq<nat>): nat {
    if s == [] then 0 else Sum(s[..|s| - 1]) + s[|s| - 1]
  }

  lemma {:induction false} SumPrefix(s: seq<nat>, i: nat)
    requires i <= |s|
    ensures Sum(s[..i]) <= Sum(s)
    decreases |s| - i
  {
    if i < |s| {
      assert s[..i + 1][..i] == s[..i];
      SumPrefix(s, i + 1);
    } else {
      assert s[..i] == s;
    }
  }

  lemma SumNone(s: seq<nat>)
    ensures Sum(s[..0]) == 0
  {
  }

  lemma SumNext(s: seq<nat>, i: nat)
    requires i < |s|
    ensures Sum(s[..i + 1]) == Sum(s[..i]) + s[i] <= Sum(s)
  {
    assert s[..i + 1][..i] == s[..i];
    SumPrefix(s, i + 1);
  }

  lemma SumOne(n: nat)
    ensures Sum([n]) == n
  {
    assert [n][..0] == [];
  }

  /** The most frames an operation may take. */
  function OpCost(op: Op): nat {
    match op
    case SpawnOp(_, root) => root
    case ForkOp(_, _, need) => Sum(need)
    case StoreOp(_, _, _) => 1
    case CopyoutOp(_, dst, src) => Touched(dst, |src|)
    case GrowOp(_, _, _, _, need) => |need| + Sum(need)
    case _ => 0
  }

  function Cost(ops: seq<Op>): nat {
    if ops == [] then 0 else Cost(ops[..|ops| - 1]) + OpCost(ops[|ops| - 1])
  }

  lemma CostStart(ops: seq<Op>)
    ensures Cost(ops[..0]) == 0
  {
  }

  lemma {:induction false} CostPrefix(ops: seq<Op>, i: nat)
    requires i <= |ops|
    ensures Cost(ops[..i]) <= Cost(ops)
    decreases |ops| - i
  {
    if i < |ops| {
      assert ops[..i + 1][..i] == ops[..i];
      CostPrefix(ops, i + 1);
    } else {
      assert ops[..i] == ops;
    }
  }

  lemma CostNext(ops: seq<Op>, i: nat)
    requires i < |ops|
    ensures Cost(ops[..i + 1]) == Cost(ops[..i]) + OpCost(ops[i]) <= Cost(ops)
  {
    assert ops[..i + 1][..i] == ops[..i];
    CostPrefix(ops, i + 1);
  }

  // ---------------------------------------------------------------- operations that cannot be misjudged

  /** Every mapped page that the range touches is writable. */
  ghost predicate WritableRange(w: Pages, p: nat, dst: nat, n: nat) {
    forall va: nat :: dst <= va < dst + n && SlotOf(p, va) in w ==> w[SlotOf(p, va)].flags.w
  }

  /** Stores lie below the process size, copyouts on pages that may be written. */
  ghost predicate TameOp(w: World, op: Op)
    requires Legal(w.sz, op)
  {
    match op
    case StoreOp(p, va, _) => va < w.sz[p] || !MayStore(w.pages, p, va)
    case CopyoutOp(p, dst, src) => WritableRange(w.pages, p, dst, |src|)
    case _ => true
  }

  ghost predicate Tame(w: World, ops: seq<Op>)
    requires LegalRun(w, ops)
    decreases |ops|
  {
    ops == [] || (TameOp(w, ops[0]) && Tame(Step(w, ops[0]), ops[1..]))
  }

  lemma {:induction false} TameNext(w: World, ops: seq<Op>, i: nat)
    requires LegalRun(w, ops) && Tame(w, ops) && i < |ops|
    ensures LegalRun(w, ops[..i]) && Legal(EagerRun(w, ops[..i]).sz, ops[i]) && TameOp(EagerRun(w, ops[..i]), ops[i])
    decreases i
  {
    hide Step, Legal, Sized, TameOp;
    RunNext(w, ops, i);
    if i > 0 {
      TameNext(Step(w, ops[0]), ops[1..], i - 1);
      assert ops[..i][1..] == ops[1..][..i - 1];
    }
  }

  lemma TameHarmless(ptes: map<Slot, Pte>, refcnt: seq<nat>, pages: seq<Page>, p: nat, dst: nat, bytes: seq<Byte>)
    requires forall va: nat :: dst <= va < dst + |bytes| && SlotOf(p, va) in ptes ==> Seen(ptes[SlotOf(p, va)].flags).w
    ensures Harmless(ptes, refcnt, pages, p, dst, bytes)
  {
    forall k | k in ptes && k.pid == p && !Seen(ptes[k].flags).w && ptes[k].frame < |pages|
      ensures Patch(pages[ptes[k].frame], k.page * PGSIZE, dst, bytes) == pages[ptes[k].frame]
    {
      var page := pages[ptes[k].frame];
      forall i | 0 <= i < PGSIZE ensures Patch(page, k.page * PGSIZE, dst, bytes)[i] == page[i] {
        if dst <= k.page * PGSIZE + i < dst + |bytes| {
          assert (k.page * PGSIZE + i) / PGSIZE == k.page;
          assert SlotOf(p, k.page * PGSIZE + i) == k;
        }
      }
    }
  }
}
