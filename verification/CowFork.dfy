/** The copy-on-write kernel of 1805112.patch, over kalloc.c and vm.c: frames are shared by fork and
    copied when a process stores to them or the kernel copies out to them.  Every operation is proved
    to show processes exactly what eager copying would. */
module CowFork {
  import opened Basics
  import opened CowFrames
  import opened EagerFork
  import opened CowView

  class Kernel {
    const refcnt: array<nat>
    const page: array<Page>
    var free: seq<nat>
    var ptes: map<Slot, Pte>
    var tables: map<nat, nat>  // page-table frames and the process each belongs to
    var sz: map<nat, nat>
    ghost var pending: set<nat>  // frames allocated in the operation under way

    ghost predicate Valid()
      reads this, refcnt
    {
      && page.Length == refcnt.Length
      && pending !! tables.Keys
      && Accounted(refcnt[..], free, ptes, tables.Keys + pending)
      && Aligned(ptes)
    }

    /** Between operations. */
    ghost predicate Idle()
      reads this, refcnt
    {
      Valid() && pending == {} && Sized(ptes.Keys, sz) && forall f :: f in tables ==> tables[f] in sz
    }

    ghost function View(): Pages
      reads this, page
    {
      ViewOf(ptes, page[..])
    }

    method Kalloc() returns (r: Option<nat>)
      requires Valid()
      modifies refcnt, page, this`free, this`pending
      ensures Valid() && View() == old(View())
      ensures r.None? <==> old(free) == []
      ensures r.None? ==>
                free == old(free) && pending == old(pending) && refcnt[..] == old(refcnt[..]) && page[..] == old(page[..])
      ensures r.Some? ==>
                && r.value < refcnt.Length && r.value !in old(pending) && r.value !in tables
                && free == old(free)[1..] && pending == old(pending) + {r.value}
                && refcnt[..] == old(refcnt[..])[r.value := 1] && page[..] == old(page[..])[r.value := Filled(5)]
    {
      if free == [] {
        return None;
      }
      Alloc(refcnt[..], free, ptes, tables.Keys + pending);
      var f := free[0];
      free := free[1..];
      refcnt[f] := 1;
      assert refcnt[..] == old(refcnt[..])[f := 1];
      ViewUnmapped(ptes, page[..], f, Filled(5));
      page[f] := Filled(5);
      assert page[..] == old(page[..])[f := Filled(5)];
      pending := pending + {f};
      assert tables.Keys + pending == tables.Keys + old(pending) + {f};
      r := Some(f);
    }

    /** kfree: drop one reference, and put the frame on the free list with the last one. */
    method Kfree(f: nat)
      requires page.Length == refcnt.Length && f < refcnt.Length && refcnt[f] > 0
      modifies refcnt, page, this`free
      ensures refcnt[..] == Dropped(old(refcnt[..]), f)
      ensures free == Pushed(old(free), old(refcnt[..]), f)
      ensures page[..] == if old(refcnt[f]) == 1 then old(page[..])[f := Filled(1)] else old(page[..])
    {
      refcnt[f] := refcnt[f] - 1;
      if refcnt[f] == 0 {
        page[f] := Filled(1);
        free := [f] + free;
      }
    }

    /** The entry k goes, with its reference. */
    method UnmapPage(k: Slot)
      requires Valid() && k in ptes
      modifies refcnt, page, this`free, this`ptes
      ensures Valid() && ptes == old(ptes) - {k} && |free| >= |old(free)|
      ensures View() == old(View()) - {k}
    {
      hide Counted, Exclusive, ViewOf, Aligned;
      AlignedRemove(ptes, k);
      Unmap(refcnt[..], free, ptes, tables.Keys + pending, k);
      var f := ptes[k].frame;
      Kfree(f);
      ptes := ptes - {k};
      if old(refcnt[f]) == 1 {
        ViewUnmapped(ptes, old(page[..]), f, Filled(1));
      }
      ViewRemove(old(ptes), old(page[..]), k);
    }

    /** walk(alloc = 1) at one level: a page-table page for process p, or false when memory is out. */
    method TakeTable(p: nat) returns (ok: bool)
      requires Valid()
      modifies refcnt, page, this`free, this`pending, this`tables
      ensures Valid() && View() == old(View()) && pending == old(pending) && AddedTo(old(tables), tables, p)
      ensures forall f :: f in pending && f < page.Length ==> page[f] == old(page[f])
      ensures if ok then |free| == |old(free)| - 1 else old(free) == free == []
    {
      hide Counted, Exclusive, ViewOf, Aligned;
      var r := Kalloc();
      ok := r.Some?;
      if ok {
        ghost var held := tables.Keys + pending;
        tables := tables[r.value := p];
        pending := pending - {r.value};
        assert tables.Keys + pending == held;
      }
    }

    /** All the page-table pages a mapping still needs. */
    method TakeTables(p: nat, need: nat) returns (ok: bool)
      requires Valid()
      modifies refcnt, page, this`free, this`pending, this`tables
      ensures Valid() && View() == old(View()) && pending == old(pending) && AddedTo(old(tables), tables, p)
      ensures forall f :: f in pending && f < page.Length ==> page[f] == old(page[f])
      ensures if ok then |free| == |old(free)| - need else |old(free)| < need
    {
      hide Accounted, ViewOf, Aligned;
      var i := 0;
      while i < need
        invariant 0 <= i <= need && Valid() && View() == old(View()) && pending == old(pending)
        invariant AddedTo(old(tables), tables, p)
        invariant forall f :: f in pending && f < page.Length ==> page[f] == old(page[f])
        invariant |free| == |old(free)| - i
      {
        ok := TakeTable(p);
        if !ok {
          return;
        }
        i := i + 1;
      }
      ok := true;
    }

    /** freewalk: give back every page-table page of process p. */
    method FreeTables(p: nat)
      requires Valid()
      modifies refcnt, page, this`free, this`tables
      ensures Valid() && View() == old(View()) && |free| >= |old(free)|
      ensures tables == WithoutOwner(old(tables), p)
    {
      hide Counted, Exclusive, ViewOf, Aligned;
      var todo := Owned(tables, p);
      while todo != {}
        invariant Valid() && View() == old(View()) && |free| >= |old(free)|
        invariant todo == Owned(tables, p)
        invariant tables.Keys <= old(tables).Keys && forall f :: f in tables ==> tables[f] == old(tables)[f]
        invariant forall f :: f in old(tables) && f !in tables ==> old(tables)[f] == p
        decreases todo
      {
        var f :| f in todo;
        ghost var pages := page[..];
        Unhold(refcnt[..], free, ptes, tables.Keys + pending, f);
        ghost var held := tables.Keys + pending - {f};
        Kfree(f);
        ViewUnmapped(ptes, pages, f, Filled(1));
        tables := tables - {f};
        assert tables.Keys + pending == held;
        todo := todo - {f};
      }
      NoneOwned(old(tables), tables, p);
    }

    /** One round of uvmcopy's loop: the child's page v shares the parent's frame; both lose PTE_W and
        are marked COW if it was set. */
    method SharePage(p: nat, c: nat, v: nat, need: nat) returns (ok: bool)
      requires Valid() && Slot(p, v) in ptes && Slot(c, v) !in ptes
      modifies refcnt, page, this`free, this`pending, this`tables, this`ptes
      ensures Valid() && pending == old(pending)
      ensures forall k :: k in old(ptes) ==> k in ptes && ptes[k].frame == old(ptes)[k].frame
      ensures ptes.Keys == old(ptes.Keys) + if ok then {Slot(c, v)} else {}
      ensures View() == if ok then old(View())[Slot(c, v) := old(View())[Slot(p, v)]] else old(View())
      ensures if ok then |free| == |old(free)| - need else |old(free)| < need
      ensures AddedTo(old(tables), tables, c)
      ensures !ptes[Slot(p, v)].flags.w && forall k :: k in old(ptes) && k != Slot(p, v) ==> ptes[k] == old(ptes)[k]
      ensures ok ==> ptes[Slot(c, v)] == ptes[Slot(p, v)]
    {
      hide Counted, Exclusive, ViewOf, Aligned;
      var k, k' := Slot(p, v), Slot(c, v);
      var pte := ptes[k];
      FrameOf(refcnt[..], free, ptes, tables.Keys + pending, k);
      var flags := pte.flags;
      if flags.w {
        flags := flags.(rsw := true, w := false);
        Reflag(refcnt[..], free, ptes, tables.Keys + pending, k, flags);
        ViewPut(ptes, page[..], k, Pte(pte.frame, flags));
        ViewAt(ptes, page[..], k);
        AlignedSame(ptes, k, k, flags);
        ptes := ptes[k := Pte(pte.frame, flags)];
      }
      assert View() == old(View());
      ok := TakeTables(c, need);
      if !ok {
        return;
      }
      Share(refcnt[..], free, ptes, tables.Keys + pending, k, k', flags);
      ViewPut(ptes, page[..], k', Pte(pte.frame, flags));
      ViewAt(ptes, page[..], k);
      AlignedSame(ptes, k, k', flags);
      ghost var refs := refcnt[..];
      ptes := ptes[k' := Pte(pte.frame, flags)];
      refcnt[pte.frame] := refcnt[pte.frame] + 1;
      assert refcnt[..] == refs[pte.frame := refs[pte.frame] + 1];
    }

    /** uvmunmap with do_free set, over pages lo up to hi of p; false is the panic at a page that is not mapped. */
    method UvmUnmap(p: nat, lo: nat, hi: nat) returns (ok: bool)
      requires Valid() && lo <= hi
      modifies refcnt, page, this`free, this`ptes
      ensures ok <==> forall v: nat :: lo <= v < hi ==> Slot(p, v) in old(ptes)
      ensures Valid() && |free| >= |old(free)|
      ensures ok ==> ptes == Remove(old(ptes), p, lo, hi) && View() == Remove(old(View()), p, lo, hi)
    {
      hide Accounted, ViewOf, Aligned;
      var a := lo;
      RemoveOne(ptes, p, lo, lo);
      RemoveOne(View(), p, lo, lo);
      while a < hi
        invariant lo <= a <= hi && Valid() && |free| >= |old(free)|
        invariant forall v: nat :: lo <= v < a ==> Slot(p, v) in old(ptes)
        invariant ptes == Remove(old(ptes), p, lo, a) && View() == Remove(old(View()), p, lo, a)
      {
        if Slot(p, a) !in ptes {
          return false;
        }
        UnmapPage(Slot(p, a));
        RemoveOne(old(ptes), p, lo, a);
        RemoveOne(old(View()), p, lo, a);
        a := a + 1;
      }
      ok := true;
    }

    /** The loop of uvmcopy; stops at page i when memory runs out. */
    method SharePages(p: nat, c: nat, need: seq<nat>) returns (i: nat)
      requires Valid() && pending == {} && p != c
      requires forall v: nat :: v < |need| ==> Slot(p, v) in View() && Slot(c, v) !in ptes
      modifies refcnt, page, this`free, this`pending, this`tables, this`ptes
      ensures Valid() && pending == {} && i <= |need|
      ensures if i < |need| then |old(free)| < Sum(need) else |free| == |old(free)| - Sum(need)
      ensures View() == EagerFork.Fork(old(View()), p, c, i)
      ensures Shared(old(ptes), ptes, c, i) && Twins(ptes, p, c, i)
      ensures AddedTo(old(tables), tables, c)
    {
      hide Accounted, ViewOf, Aligned, Remove, Shared, AddedTo, Twins, Sum, EagerFork.Fork;
      ForkNone(View(), p, c);
      SumNone(need);
      SharedNone(old(ptes), p, c);
      AddedNone(old(tables), c);
      i := 0;
      while i < |need|
        invariant Valid() && pending == {} && i <= |need|
        invariant |free| == |old(free)| - Sum(need[..i])
        invariant View() == EagerFork.Fork(old(View()), p, c, i)
        invariant Shared(old(ptes), ptes, c, i) && Twins(ptes, p, c, i)
        invariant AddedTo(old(tables), tables, c)
      {
        ghost var tables0 := tables;
        ForkAt(old(View()), p, c, i, Slot(p, i));
        ForkNext(old(View()), p, c, i);
        InView(ptes, page[..], Slot(p, i));
        InView(old(ptes), old(page[..]), Slot(p, i));
        SumNext(need, i);
        SharedAt(old(ptes), ptes, c, i);
        ghost var before := ptes;
        var ok := SharePage(p, c, i, need[i]);
        SharedNext(old(ptes), before, ptes, c, i, ok);
        AddedTwice(old(tables), tables0, tables, c);
        if !ok {
          TwinsKept(before, ptes, p, c, i);
          return;
        }
        TwinsNext(before, ptes, p, c, i);
        i := i + 1;
      }
      assert need[..i] == need;
    }

    /** uvmcopy: all pages of p, or none when memory runs out. */
    method UvmCopy(p: nat, c: nat, need: seq<nat>) returns (ok: bool)
      requires Valid() && pending == {} && p != c
      requires (forall v: nat :: v < |need| ==> Slot(p, v) in View()) && forall k :: k in View() ==> k.pid != c
      requires View().Keys == ptes.Keys
      modifies refcnt, page, this`free, this`pending, this`tables, this`ptes
      ensures Valid() && pending == {}
      ensures if ok then |free| == |old(free)| - Sum(need) else |old(free)| < Sum(need)
      ensures View() == EagerFork.Fork(old(View()), p, c, if ok then |need| else 0)
      ensures Shared(old(ptes), ptes, c, if ok then |need| else 0)
      ensures ok ==> Twins(ptes, p, c, |need|)
      ensures AddedTo(old(tables), tables, c)
    {
      hide Accounted, ViewOf, Aligned;
      var i := SharePages(p, c, need);
      ok := i == |need|;
      if !ok {
        var _ := UvmUnmap(c, 0, i);
        ForkUndone(old(View()), p, c, i);
      }
    }

    /** fork; need[v] is how many page-table pages mapping page v takes.  When memory runs out the
        child is undone and no frame leaks. */
    method Fork(p: nat, c: nat, need: seq<nat>) returns (ok: bool)
      requires Idle() && p in sz && c !in sz && |need| == RoundUp(sz[p])
      modifies refcnt, page, this`free, this`pending, this`tables, this`ptes, this`sz
      ensures Idle()
      ensures forall v :: 0 <= v < RoundUp(old(sz)[p]) ==> Slot(p, v) in old(View())
      ensures ok ==> View() == EagerFork.Fork(old(View()), p, c, RoundUp(old(sz)[p])) && sz == old(sz)[c := old(sz)[p]]
      ensures !ok ==> View() == old(View()) && sz == old(sz) && tables == old(tables) && refcnt[..] == old(refcnt[..])
      ensures if ok then |free| == |old(free)| - Sum(need) else |old(free)| < Sum(need)
      ensures ok ==> Twins(ptes, p, c, RoundUp(old(sz)[p]))
    {
      hide Accounted, ViewOf, Aligned, EagerFork.Fork;
      ViewKeys(refcnt[..], free, ptes, tables.Keys + pending, page[..]);
      assert forall v: nat :: v < |need| ==> Slot(p, v) in ptes.Keys;
      assert forall k :: k in ptes.Keys ==> Slot(k.pid, k.page) in ptes.Keys;
      ok := UvmCopy(p, c, need);
      if ok {
        sz := sz[c := sz[p]];
        SizedFork(old(ptes.Keys), ptes.Keys, old(sz), p, c, |need|);
      } else {
        TablesBack(old(tables), tables, c);
        FreeTables(c);
        ForkNothing(old(View()), p, c);
        assert tables == old(tables);
        assert ptes.Keys == old(ptes).Keys;
        SameCounts(old(refcnt[..]), old(free), old(ptes), tables.Keys + {}, refcnt[..], free, ptes);
      }
    }

    /** cowalloc: page k becomes private and writable, whatever its entry said before. */
    method CowAlloc(k: Slot) returns (r: Option<nat>)
      requires Valid() && pending == {}
      modifies refcnt, page, this`free, this`pending, this`ptes
      ensures Valid() && pending == {}
      ensures r.None? <==> k !in old(ptes) || !old(ptes)[k].flags.u || (Refs(old(refcnt[..]), old(ptes)[k]) > 1 && old(free) == [])
      ensures r.None? ==> free == old(free) && ptes == old(ptes) && View() == old(View())
      ensures r.Some? ==>
                && k in old(View()) && ptes == old(ptes)[k := Pte(r.value, Granted(old(ptes)[k].flags))]
                && View() == old(View())[k := EPage(old(View())[k].data, Granted(old(View())[k].flags))]
                && |free| == |old(free)| - (if Refs(old(refcnt[..]), old(ptes)[k]) > 1 then 1 else 0)
      ensures forall j :: j in old(ptes) && j.page != k.page ==>
                j in ptes && Refs(refcnt[..], ptes[j]) == Refs(old(refcnt[..]), old(ptes)[j])
    {
      hide Counted, Exclusive, ViewOf, Aligned;
      if k !in ptes || !ptes[k].flags.u {
        return None;
      }
      var pte := ptes[k];
      var flags := Granted(pte.flags);
      FrameOf(refcnt[..], free, ptes, tables.Keys + pending, k);
      ViewAt(ptes, page[..], k);
      if refcnt[pte.frame] == 1 {
        Reflag(refcnt[..], free, ptes, tables.Keys + pending, k, flags);
        ViewPut(ptes, page[..], k, Pte(pte.frame, flags));
        AlignedSame(ptes, k, k, flags);
        ptes := ptes[k := Pte(pte.frame, flags)];
        return Some(pte.frame);
      }
      r := Kalloc();
      if r.Some? {
        HeldUnmapped(refcnt[..], free, ptes, tables.Keys + pending, r.value);
        RefsElsewhere(old(refcnt[..]), refcnt[..], ptes, r.value, 1);
        ghost var counts := refcnt[..];
        CopyFrame(k, r.value, flags);
        RefsDropped(counts, refcnt[..], old(ptes), k);
      }
    }

    /** The copying branch of cowalloc: fill newpage, remap k to it, drop the old frame. */
    method CopyFrame(k: Slot, newpage: nat, flags: Flags)
      requires Valid() && pending == {newpage} && newpage < page.Length && k in ptes
      requires ptes[k].frame < refcnt.Length && refcnt[ptes[k].frame] > 1
      requires !(flags.w && flags.rsw)
      modifies refcnt, page, this`free, this`pending, this`ptes
      ensures Valid() && pending == {} && ptes == old(ptes)[k := Pte(newpage, flags)] && free == old(free)
      ensures k in old(View()) && View() == old(View())[k := EPage(old(View())[k].data, Seen(flags))]
      ensures refcnt[..] == Dropped(old(refcnt[..]), old(ptes)[k].frame)
    {
      hide Counted, Exclusive, ViewOf, Aligned;
      var pa := ptes[k].frame;
      HeldUnmapped(refcnt[..], free, ptes, tables.Keys + pending, newpage);
      ViewUnmapped(ptes, page[..], newpage, page[pa]);
      page[newpage] := page[pa];
      assert page[..] == old(page[..])[newpage := old(page[..])[pa]];
      Move(refcnt[..], free, ptes, tables.Keys + pending, k, Pte(newpage, flags));
      ViewPut(ptes, page[..], k, Pte(newpage, flags));
      ViewAt(ptes, page[..], k);
      AlignedPut(ptes, k, Pte(newpage, flags));
      ptes := ptes[k := Pte(newpage, flags)];
      Kfree(pa);
      assert tables.Keys + {} == tables.Keys + pending - {newpage};
      pending := {};
    }

    /** A user store of one byte: the hardware writes through PTE_W; otherwise the store fault of
        usertrap runs and the store is retried, or the process is killed (done is false). */
    method Store(p: nat, va: nat, b: Byte) returns (done: bool)
      requires Idle() && p in sz
      modifies refcnt, page, this`free, this`pending, this`ptes
      ensures Idle()
      ensures done <==>
                && MayStore(old(View()), p, va)
                && (old(ptes)[SlotOf(p, va)].flags.w ||
                    (va < sz[p] && (Refs(old(refcnt[..]), old(ptes)[SlotOf(p, va)]) == 1 || old(free) != [])))
      ensures View() == if done then Write(old(View()), p, va, [b]) else old(View())
      ensures done ==> Stored(old(View()), View(), p, va, [b])
      ensures |free| + (if va < sz[p] && Copies(old(ptes), old(refcnt[..]), SlotOf(p, va)) then 1 else 0) >= |old(free)|
    {
      hide Accounted, ViewOf, Aligned, Sized, Write, Patch, Stored;
      var k := SlotOf(p, va);
      ViewKeys(refcnt[..], free, ptes, tables.Keys + pending, page[..]);
      if k !in ptes {
        return false;
      }
      FrameOf(refcnt[..], free, ptes, tables.Keys + pending, k);
      ViewAt(ptes, page[..], k);
      if !(ptes[k].flags.u && ptes[k].flags.w) {
        if va >= sz[p] || !ptes[k].flags.rsw {
          return false;
        }
        var r := CowAlloc(k);
        if r.None? {
          return false;
        }
        assert View() == old(View());
        assert ptes.Keys == old(ptes.Keys);
      }
      WriteStores(View(), p, va, [b]);
      WriteFrame(k, va, [b]);
      done := true;
    }

    /** memmove into the frame of the writable page k. */
    method WriteFrame(k: Slot, va: nat, bytes: seq<Byte>)
      requires Valid() && k in ptes && ptes[k].flags.w && k == SlotOf(k.pid, va) && va % PGSIZE + |bytes| <= PGSIZE
      modifies page
      ensures Valid() && View() == Write(old(View()), k.pid, va, bytes)
    {
      hide Exclusive, ViewOf, Aligned;
      FrameOf(refcnt[..], free, ptes, tables.Keys + pending, k);
      ViewAt(ptes, page[..], k);
      var f := ptes[k].frame;
      var data := page[f][..va % PGSIZE] + bytes + page[f][va % PGSIZE + |bytes|..];
      MemmoveIs(page[f], k.page, va, bytes);
      WriteSole(refcnt[..], free, ptes, tables.Keys + pending, page[..], k, data);
      WriteWithin(View(), k.pid, va, bytes);
      page[f] := data;
      assert page[..] == old(page[..])[f := data];
    }

    /** One round of copyout, inside one page; false when the page cannot be translated or copied.  A page that is
        neither writable nor marked COW is written where it is, for everybody who maps its frame. */
    method CopyoutPage(p: nat, dst: nat, chunk: seq<Byte>) returns (ok: bool)
      requires Valid() && pending == {} && dst % PGSIZE + |chunk| <= PGSIZE
      modifies refcnt, page, this`free, this`pending, this`ptes
      ensures Valid() && pending == {} && ptes.Keys == old(ptes.Keys) && old(View()).Keys == old(ptes.Keys)
      ensures PageCopied(old(ptes), old(refcnt[..]), old(View()), |old(free)|, ptes, refcnt[..], View(), |free|,
                         p, dst, chunk, ok)
    {
      hide Accounted, ViewOf, Aligned, Write, Patch, Smear, SharesReadOnly;
      var k := SlotOf(p, dst);
      ViewKeys(refcnt[..], free, ptes, tables.Keys + pending, page[..]);
      if k !in ptes {
        return false;
      }
      FrameOf(refcnt[..], free, ptes, tables.Keys + pending, k);
      ViewAt(ptes, page[..], k);
      if !ptes[k].flags.u {
        return false;
      }
      if ptes[k].flags.rsw {
        var r := CowAlloc(k);
        if r.None? {
          return false;
        }
        SharesKept(old(ptes), k, ptes[k]);
        assert View() == old(View());
      }
      ok := true;
      if ptes[k].flags.w {
        SmearWritable(old(View()), old(ptes), p, dst, chunk);
        WriteFrame(k, dst, chunk);
      } else {
        SmearFrame(ptes, page[..], p, dst, chunk);
        ghost var pages := page[..];
        var pa := page[ptes[k].frame];
        MemmoveIs(pa, k.page, dst, chunk);
        page[ptes[k].frame] := pa[..dst % PGSIZE] + chunk + pa[dst % PGSIZE + |chunk|..];
        assert page[..] == pages[ptes[k].frame := page[ptes[k].frame]];
      }
    }

    /** copyout: n is how many bytes were copied; the call fails when n < |src|.  It stops short of the first
        address that cannot be translated exactly when the free list is shorter than the copies it takes, and it
        does what eager copying does exactly when it changes no read-only page that is shared. */
    method Copyout(p: nat, dst: nat, src: seq<Byte>) returns (n: nat)
      requires Idle()
      modifies refcnt, page, this`free, this`pending, this`ptes
      ensures Idle() && n <= Reach(old(View()), p, dst, |src|)
      ensures n == Reach(old(View()), p, dst, |src|) <==>
              |old(free)| >= CopiesFor(old(ptes), old(refcnt[..]), p, dst, |src|)
      ensures |free| + CopiesFor(old(ptes), old(refcnt[..]), p, dst, |src|) >= |old(free)|
      ensures View() == Smear(old(View()), old(ptes), p, dst, src[..n])
      ensures Smeared(old(View()), View(), old(ptes), p, dst, src[..n])
      ensures Harmless(old(ptes), old(refcnt[..]), old(page[..]), p, dst, src[..n]) ==>
                Stored(old(View()), View(), p, dst, src[..n])
      ensures View() == Write(old(View()), p, dst, src[..n]) <==>
              Harmless(old(ptes), old(refcnt[..]), old(page[..]), p, dst, src[..n])
    {
      hide Accounted, Aligned, ViewOf, Write, Patch, Sized, Reach, Smear, Harmless, CopiesFor, Copying, PageCopied,
        Stored, Smeared;
      n := 0;
      ghost var v0, ptes0, refs0, free0, pages0, held0 := View(), ptes, refcnt[..], free, page[..], tables.Keys + pending;
      ViewFlags(refs0, free0, ptes0, held0, pages0);
      CopyingStart(ptes0, refs0, v0, |free0|, p, dst, src);
      while n < |src|
        invariant Valid() && pending == {} && ptes.Keys == old(ptes.Keys) && n <= |src|
        invariant Copying(ptes0, refs0, v0, |free0|, ptes, refcnt[..], View(), |free|, p, dst, src, n)
        decreases |src| - n
      {
        var m := PGSIZE - (dst + n) % PGSIZE;
        if m > |src| - n {
          m := |src| - n;
        }
        ghost var v1, ptes1, refs1, free1 := View(), ptes, refcnt[..], |free|;
        var ok := CopyoutPage(p, dst + n, src[n..n + m]);
        CopyingNext(ptes0, refs0, v0, |free0|, ptes1, refs1, v1, free1, ptes, refcnt[..], View(), |free|, p, dst, src, n, m, ok);
        if !ok {
          CopyoutExact(refs0, free0, ptes0, held0, pages0, p, dst, src[..n]);
          WriteStores(v0, p, dst, src[..n]);
          SmearStores(v0, ptes0, p, dst, src[..n]);
          return;
        }
        n := n + m;
      }
      CopyingEnd(ptes0, refs0, v0, |free0|, ptes, refcnt[..], View(), |free|, p, dst, src);
      CopyoutExact(refs0, free0, ptes0, held0, pages0, p, dst, src[..n]);
      WriteStores(v0, p, dst, src[..n]);
      SmearStores(v0, ptes0, p, dst, src[..n]);
    }

    /** One round of uvmalloc's loop: a zeroed page at slot k. */
    method GrowPage(k: Slot, flags: Flags, need: nat) returns (ok: bool)
      requires Valid() && pending == {} && k !in ptes && !(flags.w && flags.rsw)
      modifies refcnt, page, this`free, this`pending, this`tables, this`ptes
      ensures Valid() && pending == {} && AddedTo(old(tables), tables, k.pid)
      ensures View() == if ok then old(View())[k := EPage(Filled(0), Seen(flags))] else old(View())
      ensures if ok then ptes.Keys == old(ptes.Keys) + {k} else ptes == old(ptes)
      ensures if ok then |free| == |old(free)| - 1 - need else |old(free)| < 1 + need
    {
      hide Counted, Exclusive, ViewOf, Aligned;
      var r := Kalloc();
      if r.None? {
        return false;
      }
      var mem := r.value;
      HeldUnmapped(refcnt[..], free, ptes, tables.Keys + pending, mem);
      ViewUnmapped(ptes, page[..], mem, Filled(0));
      ghost var pages := page[..];
      page[mem] := Filled(0);
      assert page[..] == pages[mem := Filled(0)];
      ok := TakeTables(k.pid, need);
      ghost var held := tables.Keys + pending;
      assert held - {mem} == tables.Keys + {};
      if !ok {
        Unhold(refcnt[..], free, ptes, held, mem);
        ViewUnmapped(ptes, page[..], mem, Filled(1));
        Kfree(mem);
        pending := {};
        return;
      }
      MapHeld(refcnt[..], free, ptes, held, k, Pte(mem, flags));
      ViewPut(ptes, page[..], k, Pte(mem, flags));
      HeldUnmapped(refcnt[..], free, ptes, held, mem);
      AlignedPut(ptes, k, Pte(mem, flags));
      ptes := ptes[k := Pte(mem, flags)];
      pending := {};
    }

    /** The loop of uvmalloc over pages lo up to hi; stops short when memory runs out. */
    method GrowPages(p: nat, lo: nat, hi: nat, flags: Flags, need: seq<nat>) returns (a: nat)
      requires Valid() && pending == {} && lo <= hi && |need| == hi - lo && !flags.rsw
      requires forall v: nat :: lo <= v < hi ==> Slot(p, v) !in ptes
      modifies refcnt, page, this`free, this`pending, this`tables, this`ptes
      ensures Valid() && pending == {} && AddedTo(old(tables), tables, p)
      ensures lo <= a <= hi && View() == Grow(old(View()), p, lo, a, flags)
      ensures forall k :: k in ptes <==> k in old(ptes) || (k.pid == p && lo <= k.page < a)
      ensures if a < hi then |old(free)| < hi - lo + Sum(need) else |free| == |old(free)| - (hi - lo) - Sum(need)
    {
      hide Accounted, ViewOf, Aligned;
      a := lo;
      while a < hi
        invariant Valid() && pending == {} && AddedTo(old(tables), tables, p)
        invariant lo <= a <= hi && View() == Grow(old(View()), p, lo, a, flags)
        invariant forall k :: k in ptes <==> k in old(ptes) || (k.pid == p && lo <= k.page < a)
        invariant |free| == |old(free)| - (a - lo) - Sum(need[..a - lo])
      {
        SumNext(need, a - lo);
        var ok := GrowPage(Slot(p, a), flags, need[a - lo]);
        if !ok {
          return;
        }
        a := a + 1;
      }
      assert need[..a - lo] == need;
    }

    /** growproc with n > 0: uvmalloc, and the new size unless memory ran out. */
    method GrowProc(p: nat, newsz: nat, w: bool, x: bool, need: seq<nat>) returns (ok: bool)
      requires Idle() && p in sz && newsz >= sz[p] && |need| == RoundUp(newsz) - RoundUp(sz[p])
      modifies refcnt, page, this`free, this`pending, this`tables, this`ptes, this`sz
      ensures Idle()
      ensures ok ==>
                && sz == old(sz)[p := newsz]
                && View() == Grow(old(View()), p, RoundUp(old(sz)[p]), RoundUp(newsz), Flags(true, w, x, true, false))
      ensures !ok ==> View() == old(View()) && sz == old(sz)
      ensures if ok then |free| == |old(free)| - |need| - Sum(need) else |old(free)| < |need| + Sum(need)
    {
      hide Accounted, ViewOf, Aligned, Grow;
      var lo, hi, flags := RoundUp(sz[p]), RoundUp(newsz), Flags(true, w, x, true, false);
      ViewKeys(refcnt[..], free, ptes, tables.Keys + pending, page[..]);
      assert forall v: nat :: lo <= v < hi ==> Slot(p, v) !in ptes.Keys;
      var a := GrowPages(p, lo, hi, flags, need);
      ok := a == hi;
      if ok {
        sz := sz[p := newsz];
        SizedGrown(old(ptes.Keys), ptes.Keys, old(sz), p, newsz);
      } else {
        var _ := UvmUnmap(p, lo, a);
        GrowUndone(old(View()), p, lo, a, flags);
        assert ptes.Keys == old(ptes.Keys);
      }
    }

    /** growproc with n < 0: uvmdealloc. */
    method ShrinkProc(p: nat, newsz: nat)
      requires Idle() && p in sz && newsz <= sz[p]
      modifies refcnt, page, this`free, this`ptes, this`sz
      ensures Idle() && sz == old(sz)[p := newsz] && |free| >= |old(free)|
      ensures View() == Remove(old(View()), p, RoundUp(newsz), RoundUp(old(sz)[p]))
    {
      hide Accounted, ViewOf, Aligned;
      var lo, hi := RoundUp(newsz), RoundUp(sz[p]);
      assert forall v: nat :: lo <= v < hi ==> Slot(p, v) in ptes.Keys;
      var _ := UvmUnmap(p, lo, hi);
      sz := sz[p := newsz];
    }

    /** freeproc: uvmfree returns the pages and then the page-table pages. */
    method Exit(p: nat)
      requires Idle() && p in sz
      modifies refcnt, page, this`free, this`ptes, this`tables, this`sz
      ensures Idle() && sz == old(sz) - {p} && tables == WithoutOwner(old(tables), p) && |free| >= |old(free)|
      ensures View() == Remove(old(View()), p, 0, RoundUp(old(sz)[p]))
    {
      hide Accounted, ViewOf, Aligned;
      assert forall v: nat :: v < RoundUp(sz[p]) ==> Slot(p, v) in ptes.Keys;
      var _ := UvmUnmap(p, 0, RoundUp(sz[p]));
      FreeTables(p);
      sz := sz - {p};
    }

    /** proc_pagetable for a new, empty process. */
    method Spawn(p: nat, root: nat) returns (ok: bool)
      requires Idle() && p !in sz
      modifies refcnt, page, this`free, this`pending, this`tables, this`sz
      ensures Idle() && View() == old(View())
      ensures sz == if ok then old(sz)[p := 0] else old(sz)
      ensures if ok then |free| == |old(free)| - root else |old(free)| < root
    {
      hide Accounted, ViewOf, Aligned;
      ok := TakeTables(p, root);
      if ok {
        sz := sz[p := 0];
      } else {
        FreeTables(p);
      }
    }

    /** kinit: every frame is handed to kfree once. */
    constructor (frames: nat)
      ensures Idle() && View() == map[] && sz == map[] && |free| == frames && fresh(refcnt) && fresh(page)
    {
      refcnt := new nat[frames](_ => 1);
      page := new Page[frames](_ => Filled(0));
      free, ptes, tables, sz, pending := [], map[], map[], map[], {};
      new;
      var f := 0;
      while f < frames
        invariant 0 <= f <= frames && fresh(refcnt) && fresh(page)
        invariant ptes == map[] && tables == map[] && sz == map[] && pending == {}
        invariant forall g :: 0 <= g < frames ==> refcnt[g] == if g < f then 0 else 1
        invariant |free| == f && forall i :: 0 <= i < f ==> free[i] == f - 1 - i
      {
        Kfree(f);
        f := f + 1;
      }
      forall g: nat ensures g in free <==> g < frames && refcnt[g] == 0 {
        assert g < frames ==> free[frames - 1 - g] == g;
      }
      assert forall g: nat :: Mappers(ptes, g) == {};
    }

    ghost function Sees(): World
      reads this, page
    {
      World(View(), sz)
    }

    /** How many free frames the operation takes. */
    function Need(op: Op): nat
      requires Legal(sz, op)
      reads this, refcnt
    {
      match op
      case SpawnOp(_, root) => root
      case ForkOp(_, _, need) => Sum(need)
      case StoreOp(p, va, _) => if va < sz[p] && Copies(ptes, refcnt[..], SlotOf(p, va)) then 1 else 0
      case CopyoutOp(p, dst, src) => CopiesFor(ptes, refcnt[..], p, dst, |src|)
      case GrowOp(_, _, _, _, need) => |need| + Sum(need)
      case _ => 0
    }

    /** What the patch gets wrong: a store to a COW page at or above the process size, but inside its last page,
        kills the process, and copyout changes a read-only page that is shared. */
    predicate Misjudged(op: Op)
      requires Legal(sz, op)
      reads this, refcnt, page
    {
      match op
      case StoreOp(p, va, _) =>
        var k := SlotOf(p, va);
        k in ptes && ptes[k].flags.u && ptes[k].flags.rsw && !ptes[k].flags.w && va >= sz[p]
      case CopyoutOp(p, dst, src) =>
        !Harmless(ptes, refcnt[..], page[..], p, dst, src[..Reach(ViewOf(ptes, page[..]), p, dst, |src|)])
      case _ => false
    }

    /** What an operation may be refused for besides memory: a store needs a page it may write, inside the process
        size unless the hardware lets it through, and copyout needs all its addresses translated. */
    predicate Allowed(op: Op)
      requires Legal(sz, op)
      reads this, page
    {
      match op
      case StoreOp(p, va, _) =>
        MayStore(ViewOf(ptes, page[..]), p, va) && (va < sz[p] || (SlotOf(p, va) in ptes && ptes[SlotOf(p, va)].flags.w))
      case CopyoutOp(p, dst, src) => Reach(ViewOf(ptes, page[..]), p, dst, |src|) == |src|
      case _ => true
    }

    /** Any operation, with its own result: it succeeds exactly when the free list is long enough and it is allowed.
        With memory enough, and unless it is misjudged, processes see afterwards what they would see under eager
        copying. */
    method Perform(op: Op) returns (done: bool)
      requires Idle() && Legal(sz, op)
      modifies refcnt, page, this`free, this`pending, this`tables, this`ptes, this`sz
      ensures Idle() && Sized(old(View()).Keys, old(sz)) && Sized(View().Keys, sz)
      ensures done <==> |old(free)| >= old(Need(op)) && old(Allowed(op))
      ensures |old(free)| >= old(Need(op)) && !old(Misjudged(op)) ==> Sees() == Step(old(Sees()), op)
      ensures |old(free)| >= old(Need(op)) ==> |free| + old(Need(op)) >= |old(free)|
      ensures !done && !op.CopyoutOp? ==> Sees() == old(Sees())
    {
      hide Accounted, Aligned, ViewOf, Write, EagerFork.Fork, Grow, Remove, Reach, Patch, Sum, Smear, Harmless, CopiesFor;
      ViewKeys(refcnt[..], free, ptes, tables.Keys + pending, page[..]);
      done := true;
      match op {
        case SpawnOp(p, root) => done := Spawn(p, root);
        case ForkOp(p, c, need) => done := Fork(p, c, need);
        case StoreOp(p, va, b) =>
          StoreFacts(refcnt[..], free, ptes, tables.Keys + pending, page[..], SlotOf(p, va));
          done := Store(p, va, b);
        case CopyoutOp(p, dst, src) =>
          var n := Copyout(p, dst, src);
          done := n == |src|;
        case GrowOp(p, newsz, w, x, need) => done := GrowProc(p, newsz, w, x, need);
        case ShrinkOp(p, newsz) => ShrinkProc(p, newsz);
        case ExitOp(p) => Exit(p);
      }
      ViewKeys(refcnt[..], free, ptes, tables.Keys + pending, page[..]);
    }

    /** Copy-on-write refines eager copying over whole runs: after n operations every process sees the same bytes
        with the same rights at every address, and the run goes on until the next operation finds the free list
        too short or is misjudged.  Neither happens when the free list covers the cost of the whole run, stores
        stay below the process size and copyouts on pages that may be written. */
    method Run(ops: seq<Op>) returns (n: nat)
      requires Idle() && LegalRun(Sees(), ops)
      modifies refcnt, page, this`free, this`pending, this`tables, this`ptes, this`sz
      ensures Idle() && n <= |ops|
      ensures LegalRun(old(Sees()), ops[..n]) && Sees() == EagerRun(old(Sees()), ops[..n])
      ensures n < |ops| ==> Legal(sz, ops[n]) && (|free| < Need(ops[n]) || Misjudged(ops[n]))
      ensures Tame(old(Sees()), ops) && |old(free)| >= Cost(ops) ==> n == |ops|
    {
      hide Accounted, Aligned, ViewOf, Step, Legal, LegalRun, Tame, TameOp, Cost, OpCost;
      ghost var w0 := Sees();
      RunStart(w0);
      CostStart(ops);
      n := 0;
      while n < |ops|
        invariant n <= |ops| && Idle() && LegalRun(w0, ops[..n]) && Sees() == EagerRun(w0, ops[..n])
        invariant |free| + Cost(ops[..n]) >= |old(free)|
      {
        RunNext(w0, ops, n);
        CostNext(ops, n);
        if Tame(w0, ops) {
          TameNext(w0, ops, n);
          TameJudged(ops[n]);
        }
        NeedBound(ops[n]);
        if Need(ops[n]) > |free| || Misjudged(ops[n]) {
          return;
        }
        var _ := Perform(ops[n]);
        n := n + 1;
      }
    }

    /** An operation never takes more than its cost. */
    lemma NeedBound(op: Op)
      requires Legal(sz, op)
      ensures Need(op) <= OpCost(op)
    {
      if op.CopyoutOp? {
        CopiesBound(ptes, refcnt[..], op.p, op.dst, |op.src|);
      }
    }

    /** A tame operation is judged rightly. */
    lemma TameJudged(op: Op)
      requires Idle() && Legal(sz, op) && TameOp(Sees(), op)
      ensures !Misjudged(op)
    {
      if op.CopyoutOp? {
        hide Accounted, Aligned, Patch;
        ViewFlags(refcnt[..], free, ptes, tables.Keys + pending, page[..]);
        TameHarmless(ptes, refcnt[..], page[..], op.p, op.dst, op.src[..Reach(View(), op.p, op.dst, |op.src|)]);
      } else if op.StoreOp? {
        hide Accounted, Aligned;
        StoreFacts(refcnt[..], free, ptes, tables.Keys + pending, page[..], SlotOf(op.p, op.va));
      }
    }
  }

  /** Page-table pages were only added, and for c. */
  ghost predicate AddedTo(was: map<nat, nat>, now: map<nat, nat>, c: nat) {
    was.Keys <= now.Keys && forall f :: f in now ==> now[f] == if f in was then was[f] else c
  }

  /** The first i pages of c were added, everything else maps the frames it did. */
  ghost predicate Shared(was: map<Slot, Pte>, now: map<Slot, Pte>, c: nat, i: nat) {
    && (forall k :: k in was ==> k in now && now[k].frame == was[k].frame)
    && (forall k :: k in now ==> k in was || (k.pid == c && k.page < i))
    && (forall v: nat :: v < i ==> Slot(c, v) in now)
  }

  /** The first i pages of p and c have the same entries, which let nobody write. */
  ghost predicate Twins(ptes: map<Slot, Pte>, p: nat, c: nat, i: nat) {
    forall v: nat :: v < i ==>
      Slot(p, v) in ptes && Slot(c, v) in ptes && ptes[Slot(c, v)] == ptes[Slot(p, v)] && !ptes[Slot(p, v)].flags.w
  }

  lemma SharedNone(was: map<Slot, Pte>, p: nat, c: nat)
    ensures Shared(was, was, c, 0) && Twins(was, p, c, 0)
  {
  }

  lemma SharedAt(was: map<Slot, Pte>, now: map<Slot, Pte>, c: nat, i: nat)
    requires Shared(was, now, c, i) && Slot(c, i) !in was
    ensures Slot(c, i) !in now
  {
  }

  lemma SharedNext(was: map<Slot, Pte>, now: map<Slot, Pte>, after: map<Slot, Pte>, c: nat, i: nat, ok: bool)
    requires Shared(was, now, c, i)
    requires forall k :: k in now ==> k in after && after[k].frame == now[k].frame
    requires after.Keys == now.Keys + if ok then {Slot(c, i)} else {}
    ensures Shared(was, after, c, if ok then i + 1 else i)
  {
  }

  lemma TwinsKept(now: map<Slot, Pte>, after: map<Slot, Pte>, p: nat, c: nat, i: nat)
    requires Twins(now, p, c, i) && p != c
    requires forall k :: k in now && k != Slot(p, i) ==> k in after && after[k] == now[k]
    ensures Twins(after, p, c, i)
  {
  }

  lemma TwinsNext(now: map<Slot, Pte>, after: map<Slot, Pte>, p: nat, c: nat, i: nat)
    requires Twins(now, p, c, i) && p != c
    requires forall k :: k in now && k != Slot(p, i) ==> k in after && after[k] == now[k]
    requires Slot(p, i) in after && Slot(c, i) in after && after[Slot(c, i)] == after[Slot(p, i)] && !after[Slot(p, i)].flags.w
    ensures Twins(after, p, c, i + 1)
  {
    TwinsKept(now, after, p, c, i);
  }

  lemma AddedNone(tables: map<nat, nat>, c: nat)
    ensures AddedTo(tables, tables, c)
  {
  }

  lemma AddedTwice(a: map<nat, nat>, b: map<nat, nat>, d: map<nat, nat>, c: nat)
    requires AddedTo(a, b, c) && AddedTo(b, d, c)
    ensures AddedTo(a, d, c)
  {
  }

  lemma SizedGrown(was: set<Slot>, now: set<Slot>, sz: map<nat, nat>, p: nat, newsz: nat)
    requires Sized(was, sz) && p in sz && newsz >= sz[p]
    requires forall k :: k in now <==> k in was || (k.pid == p && RoundUp(sz[p]) <= k.page < RoundUp(newsz))
    ensures Sized(now, sz[p := newsz])
  {
  }

  lemma SizedFork(was: set<Slot>, now: set<Slot>, sz: map<nat, nat>, p: nat, c: nat, n: nat)
    requires Sized(was, sz) && p in sz && c !in sz && n == RoundUp(sz[p])
    requires forall k :: k in now <==> k in was || (k.pid == c && k.page < n)
    ensures Sized(now, sz[c := sz[p]])
  {
  }


  function WithoutOwner(tables: map<nat, nat>, p: nat): map<nat, nat> {
    map f | f in tables && tables[f] != p :: tables[f]
  }

  /** Equal entries and equal held frames mean equal counts: nothing leaked. */
  lemma SameCounts(r: seq<nat>, free: seq<nat>, ptes: map<Slot, Pte>, held: set<nat>,
                   r': seq<nat>, free': seq<nat>, ptes': map<Slot, Pte>)
    requires Accounted(r, free, ptes, held) && Accounted(r', free', ptes', held) && |r| == |r'|
    requires ptes.Keys == ptes'.Keys && forall k :: k in ptes ==> ptes[k].frame == ptes'[k].frame
    ensures r == r'
  {
    forall f | 0 <= f < |r| ensures r[f] == r'[f] {
      assert Mappers(ptes, f) == Mappers(ptes', f);
    }
  }

  function Owned(tables: map<nat, nat>, p: nat): set<nat> {
    set f | f in tables && tables[f] == p
  }

  lemma NoneOwned(was: map<nat, nat>, now: map<nat, nat>, p: nat)
    requires Owned(now, p) == {}
    requires now.Keys <= was.Keys && forall f :: f in now ==> now[f] == was[f]
    requires forall f :: f in was && f !in now ==> was[f] == p
    ensures now == WithoutOwner(was, p)
  {
    forall f | f in now ensures now[f] != p {
      assert f !in Owned(now, p);
    }
  }

  lemma HeldUnmapped(refcnt: seq<nat>, free: seq<nat>, ptes: map<Slot, Pte>, held: set<nat>, f: nat)
    requires Accounted(refcnt, free, ptes, held) && f in held
    ensures forall k :: k in ptes ==> ptes[k].frame != f
  {
  }

  lemma ForkNothing(w: Pages, p: nat, c: nat)
    ensures EagerFork.Fork(w, p, c, 0) == w
  {
  }

  lemma TablesBack(was: map<nat, nat>, now: map<nat, nat>, c: nat)
    requires forall f :: f in was ==> was[f] != c
    ensures AddedTo(was, now, c) ==> WithoutOwner(now, c) == was
  {
  }

  /** Two processes of 100 bytes, each with one zeroed page of the given rights. */
  function Siblings(w: bool): World {
    var e := EPage(Filled(0), Flags(true, w, false, true, false));
    World(map[Slot(1, 0) := e, Slot(2, 0) := e], map[1 := 100, 2 := 100])
  }

  /** Process 1, with one page of the given rights, has forked process 2. */
  method Forked(w: bool) returns (kernel: Kernel)
    ensures fresh(kernel) && fresh(kernel.refcnt) && fresh(kernel.page) && kernel.Idle()
    ensures kernel.Sees() == Siblings(w) && |kernel.free| >= 10
    ensures Twins(kernel.ptes, 1, 2, 1)
  {
    hide Accounted, Aligned, Patch, Write, ViewOf, Sum, Mappers, Filled;
    kernel := new Kernel(20);
    var ok := kernel.Spawn(1, 1);
    ok := kernel.GrowProc(1, 100, w, false, [2]);
    SumOne(2);
    assert ok;
    ghost var e := EPage(Filled(0), Flags(true, w, false, true, false));
    OnePage(e.flags);
    ok := kernel.Fork(1, 2, [0]);
    SumOne(0);
    TwoPages(e);
    ViewKeys(kernel.refcnt[..], kernel.free, kernel.ptes, kernel.tables.Keys + kernel.pending, kernel.page[..]);
  }

  lemma OnePage(flags: Flags)
    ensures Grow(map[], 1, 0, 1, flags) == map[Slot(1, 0) := EPage(Filled(0), flags)]
  {
    assert Grow(map[], 1, 0, 0, flags) == map[];
  }

  lemma TwoPages(e: EPage)
    ensures EagerFork.Fork(map[Slot(1, 0) := e], 1, 2, 1) == map[Slot(1, 0) := e, Slot(2, 0) := e]
  {
    assert EagerFork.Fork(map[Slot(1, 0) := e], 1, 2, 0) == map[Slot(1, 0) := e];
  }

  /** A process of 100 bytes that has forked stores to byte 200 of its only page: eager copying allows it, the
      patch kills the process. */
  method StoreAboveSizeKills() returns (kernel: Kernel, done: bool)
    ensures fresh(kernel) && kernel.Idle() && 1 in kernel.sz && MayStore(kernel.View(), 1, 200) && !done
  {
    hide Accounted, Aligned, Patch, Write, ViewOf, Mappers, Filled;
    kernel := Forked(true);
    done := kernel.Store(1, 200, 7);
  }

  /** A process with a read-only page has forked, and the kernel copies a 7 out to that page: the other process
      sees the 7, where eager copying leaves its page alone. */
  method CopyoutSmears() returns (kernel: Kernel)
    ensures fresh(kernel) && kernel.Idle() && Slot(2, 0) in kernel.View() && kernel.View()[Slot(2, 0)].data[0] == 7
    ensures Sized(Siblings(false).pages.Keys, Siblings(false).sz)
    ensures var eager := Step(Siblings(false), CopyoutOp(1, 0, [7])).pages;
            Slot(2, 0) in eager && eager[Slot(2, 0)] == Siblings(false).pages[Slot(2, 0)] && eager[Slot(2, 0)].data[0] == 0
  {
    hide Accounted, Aligned, Mappers, ViewOf, Patch, Smear, SharesReadOnly, Write, Reach, CopiesFor, Harmless;
    kernel := Forked(false);
    ghost var pages, ptes := kernel.View(), kernel.ptes;
    ViewKeys(kernel.refcnt[..], kernel.free, ptes, kernel.tables.Keys + kernel.pending, kernel.page[..]);
    StoreFacts(kernel.refcnt[..], kernel.free, ptes, kernel.tables.Keys + kernel.pending, kernel.page[..], Slot(1, 0));
    SevenSmears(pages, ptes, kernel.refcnt[..]);
    var n := kernel.Copyout(1, 0, [7]);
    assert [7][..1] == [7];
  }

  lemma SevenSmears(w: Pages, ptes: map<Slot, Pte>, refcnt: seq<nat>)
    requires Slot(1, 0) in w && Slot(2, 0) in w && w[Slot(2, 0)].data == Filled(0) && w[Slot(1, 0)].flags.u
    requires Slot(1, 0) in ptes && Slot(2, 0) in ptes && ptes[Slot(2, 0)] == ptes[Slot(1, 0)]
    requires !ptes[Slot(1, 0)].flags.w && !ptes[Slot(1, 0)].flags.rsw
    ensures Reach(w, 1, 0, 1) == 1 && CopiesFor(ptes, refcnt, 1, 0, 1) == 0
    ensures var w' := Smear(w, ptes, 1, 0, [7]); Slot(2, 0) in w' && w'[Slot(2, 0)].data[0] == 7 != w[Slot(2, 0)].data[0]
    ensures var w' := Write(w, 1, 0, [7]); Slot(2, 0) in w' && w'[Slot(2, 0)] == w[Slot(2, 0)]
  {
    assert SharesReadOnly(ptes, 1, Slot(2, 0));
  }
}
