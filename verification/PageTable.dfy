/** walk, mappages, uvmunmap, freewalk and uvmfree of vm.c on page-table memory, against the finite map that
    a page table means.  Panics are results: the kernel stops there.  Astray is a result too: the code would now
    free a page-table page as a user page, or follow a user page as a table. */
module PageTable {
  import opened Basics
  import opened Sv39

  const WORD: nat := 0x1_0000_0000_0000_0000

  type Word = x: nat | x < WORD

  datatype Outcome = Done | NoMemory | Panic | Astray

  /** The view after n pages from `first` on were mapped to consecutive frames. */
  ghost function Mapped(view: map<nat, Pte>, first: nat, n: nat, frame: nat, perm: Flags): map<nat, Pte> {
    if n == 0 then view else Mapped(view, first, n - 1, frame, perm)[first + n - 1 := Pte(frame + n - 1, perm)]
  }

  lemma {:induction false} MappedAt(view: map<nat, Pte>, first: nat, n: nat, frame: nat, perm: Flags, q: nat)
    ensures var r := Mapped(view, first, n, frame, perm);
            && (q in r <==> q in view || first <= q < first + n)
            && (q in r ==> r[q] == if first <= q < first + n then Pte(frame + (q - first), perm) else view[q])
  {
    if n > 0 {
      MappedAt(view, first, n - 1, frame, perm, q);
    }
  }

  /** The view after n pages from `first` on were unmapped. */
  ghost function Unmapped(view: map<nat, Pte>, first: nat, n: nat): map<nat, Pte> {
    if n == 0 then view else Unmapped(view, first, n - 1) - {first + n - 1}
  }

  lemma UnmappedNext(view: map<nat, Pte>, first: nat, i: nat)
    ensures Unmapped(view, first, 0) == view
    ensures Unmapped(view, first, i + 1) == Unmapped(view, first, i) - {first + i}
  {
  }

  lemma {:induction false} UnmappedAt(view: map<nat, Pte>, first: nat, n: nat, q: nat)
    ensures var r := Unmapped(view, first, n);
            && (q in r <==> q in view && !(first <= q < first + n))
            && (q in r ==> r[q] == view[q])
  {
    if n > 0 {
      UnmappedAt(view, first, n - 1, q);
    }
  }

  /** The pages are mapped, by entries that do not look like pointers to tables to uvmunmap. */
  ghost predicate AllLeaves(view: map<nat, Pte>, first: nat, n: nat) {
    forall q :: first <= q < first + n ==> q in view && view[q].flags != TABLE_FLAGS
  }

  /** The frames of n consecutive mapped pages. */
  ghost function Frames(view: map<nat, Pte>, first: nat, n: nat): (r: seq<nat>)
    requires AllLeaves(view, first, n)
    ensures |r| == n
  {
    if n == 0 then [] else Frames(view, first, n - 1) + [view[first + n - 1].frame]
  }

  /** Pages from va, which is aligned, to va + npages * PGSIZE, computed in 64 bits. */
  function PageCount(va: Word, npages: Word): (n: nat)
    requires va % PGSIZE == 0
    ensures va + npages * PGSIZE < WORD ==> n == npages
    ensures var end := (va + npages * PGSIZE) % WORD; if va < end then va + n * PGSIZE == end else n == 0
  {
    var end := (va + npages * PGSIZE) % WORD;
    EndAligned(va, npages);
    if va < end then (end - va) / PGSIZE else 0
  }

  lemma EndAligned(va: Word, npages: Word)
    requires va % PGSIZE == 0
    ensures (va + npages * PGSIZE) % WORD % PGSIZE == 0
  {
  }

  /** The mapped pages of a stretch have frames of their own, neither free nor page-table pages. */
  ghost predicate Private(view: map<nat, Pte>, mem: Memory, free: seq<nat>, first: nat, n: nat) {
    && (forall q :: first <= q < first + n && q in view ==> view[q].frame !in mem && view[q].frame !in free)
    && (forall q, q' :: first <= q < q' < first + n && q in view && q' in view ==> view[q].frame != view[q'].frame)
  }

  /** No frame of the stretch is a page-table page. */
  ghost predicate NoTables(view: map<nat, Pte>, mem: Memory, first: nat, n: nat) {
    forall q :: first <= q < first + n && q in view ==> view[q].frame !in mem
  }

  /** What uvmunmap does at page q. */
  ghost function UnmapTurn(view: map<nat, Pte>, mem: Memory, q: nat, doFree: bool): Outcome {
    if q !in view || view[q].flags == TABLE_FLAGS then Panic
    else if doFree && view[q].frame in mem then Astray
    else Done
  }

  /** uvmunmap ends with the outcome of the first page that stops it. */
  ghost predicate FirstStop(view: map<nat, Pte>, mem: Memory, first: nat, n: nat, doFree: bool, o: Outcome) {
    if o.Done? then forall q: nat :: first <= q < first + n ==> UnmapTurn(view, mem, q, doFree).Done?
    else
      exists q: nat :: first <= q < first + n && UnmapTurn(view, mem, q, doFree) == o
                       && forall p: nat :: first <= p < q ==> UnmapTurn(view, mem, p, doFree).Done?
  }

  lemma FirstStopDone(view: map<nat, Pte>, mem: Memory, first: nat, n: nat, doFree: bool, o: Outcome)
    requires FirstStop(view, mem, first, n, doFree, o)
    ensures o.Done? <==> AllLeaves(view, first, n) && (doFree ==> NoTables(view, mem, first, n))
  {
    if o.Done? {
      forall q: nat | first <= q < first + n
        ensures q in view && view[q].flags != TABLE_FLAGS && (doFree ==> view[q].frame !in mem)
      {
        assert UnmapTurn(view, mem, q, doFree).Done?;
      }
    }
  }

  /** A lowest-level table among r has an entry that freewalk takes for a leaf, or for a pointer. */
  ghost predicate HasEntry(mem: Memory, s: Shape, r: seq<nat>, leaf: bool) {
    exists f, i :: f in r && f in mem && f in s.level && s.level[f] == 0 && 0 <= i < |mem[f]| && mem[f][i].Some?
                   && Leaf(mem[f][i].value.flags) == leaf
  }

  /** m1 is m without the tables in r; table t may have other contents. */
  ghost predicate Minus(m1: Memory, m: Memory, r: seq<nat>, t: nat) {
    (forall f :: f in m1 <==> f in m && f !in r) && (forall f :: f in m1 && f != t ==> m1[f] == m[f])
  }

  /** No lowest-level table among r maps anything. */
  ghost predicate Clear(mem: Memory, s: Shape, r: seq<nat>) {
    forall f, i :: f in r && f in mem && f in s.level && s.level[f] == 0 && 0 <= i < |mem[f]| ==> mem[f][i] == None
  }

  /** The walk for va from table a at level l comes through table t at the given level. */
  ghost predicate Reaches(mem: Memory, a: nat, l: nat, t: nat, level: nat, va: nat)
    requires level <= l <= 2
    decreases l
  {
    if l == level then a == t
    else a in mem && |mem[a]| == ENTRIES && mem[a][Px(l, va)].Some?
         && Reaches(mem, mem[a][Px(l, va)].value.frame, l - 1, t, level, va)
  }

  lemma {:induction false} ReachesWalk(mem: Memory, a: nat, l: nat, t: nat, level: nat, va: nat)
    requires level <= l <= 2 && Reaches(mem, a, l, t, level, va)
    ensures WalkFrom(mem, a, l, va) == WalkFrom(mem, t, level, va)
    decreases l
  {
    hide Px;
    if l > level {
      ReachesWalk(mem, mem[a][Px(l, va)].value.frame, l - 1, t, level, va);
    }
  }

  lemma {:induction false} ReachesNext(mem: Memory, a: nat, l: nat, t: nat, level: nat, va: nat)
    requires 0 < level <= l <= 2 && Reaches(mem, a, l, t, level, va)
    requires t in mem && |mem[t]| == ENTRIES && mem[t][Px(level, va)].Some?
    ensures Reaches(mem, a, l, mem[t][Px(level, va)].value.frame, level - 1, va)
    decreases l
  {
    hide Px;
    if l > level {
      ReachesNext(mem, mem[a][Px(l, va)].value.frame, l - 1, t, level, va);
    } else {
      assert Reaches(mem, mem[t][Px(level, va)].value.frame, level - 1, mem[t][Px(level, va)].value.frame, level - 1, va);
    }
  }

  /** Filling an empty entry leaves the path above it. */
  lemma {:induction false} ReachesLink(mem: Memory, a: nat, l: nat, t: nat, level: nat, va: nat, p: Pos, n: nat)
    requires level <= l <= 2 && Reaches(mem, a, l, t, level, va)
    requires p.table in mem && p.idx < |mem[p.table]| && mem[p.table][p.idx].None? && n !in mem
    ensures Reaches(Link(mem, p, n), a, l, t, level, va)
    decreases l
  {
    hide Px;
    if l > level {
      ReachesLink(mem, mem[a][Px(l, va)].value.frame, l - 1, t, level, va, p, n);
    }
  }

  ghost predicate Separate(mem: Memory, free: seq<nat>) {
    NoDup(free) && forall f :: f in free ==> f !in mem
  }

  /** Free pages and table pages, with how often each is listed. */
  ghost function Pool(mem: Memory, free: seq<nat>): multiset<nat> {
    multiset(free) + multiset(mem.Keys)
  }

  lemma PopSeparate(mem: Memory, free: seq<nat>, p: Pos)
    requires Separate(mem, free) && free != [] && p.table in mem && p.idx < |mem[p.table]|
    ensures free[0] !in mem
    ensures Separate(Link(mem, p, free[0]), free[1..]) && Pool(Link(mem, p, free[0]), free[1..]) == Pool(mem, free)
  {
    var n := free[0];
    assert free == [n] + free[1..];
    assert n !in free[1..];
    assert Link(mem, p, n).Keys == mem.Keys + {n};
    assert multiset(mem.Keys + {n}) == multiset(mem.Keys) + multiset{n};
  }

  lemma RootHalf(level: nat, va: nat)
    requires level <= 2 && va < MAXVA
    ensures level == 2 ==> Px(level, va) < ENTRIES / 2
  {
  }

  class Vm {
    var mem: Memory
    var free: seq<nat>
    const root: nat
    ghost var shape: Shape

    ghost predicate Formed()
      reads this
    {
      Linked(mem, root, shape)
    }

    /** The tables are well formed, and free pages are listed once and are no tables. */
    ghost predicate Valid()
      reads this
    {
      Formed() && Separate(mem, free)
    }

    ghost function Mapping(): map<nat, Pte>
      reads this
    {
      View(mem, root)
    }

    /** uvmcreate, on the page kalloc gave it. */
    constructor (root: nat, free: seq<nat>)
      requires NoDup(free) && root !in free
      ensures Valid() && Mapping() == map[] && this.root == root && this.free == free
    {
      this.root := root;
      this.free := free;
      mem := map[root := ZeroTable()];
      shape := Shape(map[root := 2], map[]);
      new;
      forall q: nat ensures Lookup(mem, root, q) == None {
        NewTable(mem, root, 2, q * PGSIZE);
      }
    }

    /** kalloc of a page-table page that entry i of table t is made to point to. */
    method AddTable(t: nat, level: nat, i: nat) returns (r: Option<nat>)
      requires Valid() && 0 < level <= 2 && t in mem && shape.level[t] == level && i < ENTRIES
      requires At(mem, Pos(t, i)) == None && (level == 2 ==> i < ENTRIES / 2)
      modifies this
      ensures Valid() && Mapping() == old(Mapping()) && Pool(mem, free) == old(Pool(mem, free))
      ensures r.None? ==> free == [] && mem == old(mem)
      ensures r.Some? ==>
                && r.value !in old(mem) && |old(mem)[t]| == ENTRIES && |free| == |old(free)| - 1
                && mem == Link(old(mem), Pos(t, i), r.value) && shape.level[r.value] == level - 1
    {
      LinkedAt(mem, root, shape, t, i);
      hide Linked, Down, Up, View;
      if free == [] {
        return None;
      }
      var n := free[0];
      ghost var p := Pos(t, i);
      PopSeparate(mem, free, p);
      LinkLinked(mem, root, shape, p, n);
      LinkView(mem, root, shape, p, n);
      free := free[1..];
      shape := LinkShape(shape, p, n);
      mem := mem[t := mem[t][i := Some(Pte(n, TABLE_FLAGS))]][n := ZeroTable()];
      r := Some(n);
    }

    /** walk(pagetable, va, alloc), for va below MAXVA. */
    method Walk(va: nat, alloc: bool) returns (r: Option<Pos>)
      requires Formed() && va < MAXVA && (alloc ==> Valid())
      modifies this
      ensures Formed() && (old(Valid()) ==> Valid())
      ensures Mapping() == old(Mapping()) && Pool(mem, free) == old(Pool(mem, free))
      ensures r.Some? ==> WalkFrom(mem, root, 2, va) == r
      ensures r.None? ==> if alloc then free == [] else WalkFrom(mem, root, 2, va) == None
      ensures !alloc ==> mem == old(mem) && free == old(free) && shape == old(shape)
      ensures alloc ==> (r.Some? <==> |old(free)| >= Missing(old(mem), root, va))
      ensures alloc && r.Some? ==>
                |free| == |old(free)| - Missing(old(mem), root, va) && Grown(old(mem), mem, root, va, 0)
    {
      var t, level := root, 2;
      assert t in mem && shape.level[t] == level;
      GrowingStart(mem, |free|, root, va);
      hide Linked, Separate, View, Px, Pool, Link, Growing, Grown, Missing;
      while level > 0
        invariant level <= 2 && Formed() && (old(Valid()) ==> Valid()) && t in mem && t in shape.level && shape.level[t] == level
        invariant Mapping() == old(Mapping()) && Pool(mem, free) == old(Pool(mem, free))
        invariant !alloc ==> mem == old(mem) && free == old(free) && shape == old(shape)
        invariant Reaches(mem, root, 2, t, level, va)
        invariant alloc ==> Growing(old(mem), |old(free)|, mem, |free|, root, va, level)
      {
        var i := Px(level, va);
        LinkedAt(mem, root, shape, t, i);
        if mem[t][i].Some? {
          ReachesNext(mem, root, 2, t, level, va);
          if alloc {
            GrowingOld(old(mem), |old(free)|, mem, |free|, root, shape, t, level, va);
          }
        } else {
          ReachesWalk(mem, root, 2, t, level, va);
          if !alloc {
            return None;
          }
          ghost var mem0, free0, s0 := mem, |free|, shape;
          RootHalf(level, va);
          GrowingEmpty(old(mem), |old(free)|, mem, free0, root, t, level, va);
          var n := AddTable(t, level, i);
          if n.None? {
            return None;
          }
          GrowingNew(old(mem), |old(free)|, mem0, free0, root, s0, t, level, va, n.value);
          ReachesLink(mem0, root, 2, t, level, va, Pos(t, i), n.value);
          LinkEntry(mem0, Pos(t, i), n.value);
          ReachesNext(mem, root, 2, t, level, va);
          LinkedAt(mem, root, shape, t, i);
        }
        t := mem[t][i].value.frame;
        level := level - 1;
      }
      ReachesWalk(mem, root, 2, t, 0, va);
      if alloc {
        GrowingEnd(old(mem), |old(free)|, mem, |free|, root, va);
      }
      r := Some(Pos(t, Px(0, va)));
    }

    /** One turn of the loop of mappages. */
    method MapOne(q: nat, pte: Pte) returns (o: Outcome)
      requires Valid() && q < NPAGES
      modifies this
      ensures Valid() && Pool(mem, free) == old(Pool(mem, free))
      ensures o == if |old(free)| < Missing(old(mem), root, q * PGSIZE) then NoMemory
                   else if q in old(Mapping()) then Panic else Done
      ensures Mapping() == if o.Done? then old(Mapping())[q := pte] else old(Mapping())
      ensures o.NoMemory? ==> free == []
      ensures o.Done? ==>
                |free| == |old(free)| - Missing(old(mem), root, q * PGSIZE) && Grown(old(mem), mem, root, q * PGSIZE, 0)
    {
      hide Linked, WalkFrom, View, Pool, Separate, Grown, Missing;
      var p := Walk(q * PGSIZE, true);
      if p.None? {
        return NoMemory;
      }
      SlotView(mem, root, shape, q);
      var pos := p.value;
      if mem[pos.table][pos.idx].Some? {
        return Panic;
      }
      SetView(mem, root, shape, q, Some(pte));
      SetPool(mem, free, pos, Some(pte));
      GrownSet(old(mem), mem, root, shape, q, Some(pte));
      mem := mem[pos.table := mem[pos.table][pos.idx := Some(pte)]];
      o := Done;
    }

    /** The loop of mappages, from page `first` to page `last`; n pages were mapped. */
    method MapPages(first: nat, last: nat, frame: nat, perm: Flags) returns (o: Outcome, ghost n: nat)
      requires Valid()
      modifies this
      ensures Valid() && Pool(mem, free) == old(Pool(mem, free))
      ensures Mapping() == Mapped(old(Mapping()), first, n, frame, perm)
      ensures Stopped(old(Mapping()), old(mem), root, |old(free)|, first, last, n, o)
      ensures o.NoMemory? ==> free == []
    {
      hide View, Linked, Pool, Separate, MappingSoFar, Stopped, Missing, Grown;
      n := 0;
      ghost var view, mem0, free0 := Mapping(), mem, |free|;
      MappingSoFarStart(view, mem, root, free0, first, last);
      var a, pa := first, frame;
      while a < NPAGES
        invariant Valid() && Pool(mem, free) == old(Pool(mem, free))
        invariant a == first + n && pa == frame + n
        invariant Mapping() == Mapped(view, first, n, frame, perm)
        invariant MappingSoFar(view, mem0, mem, root, free0, |free|, first, last, n)
      {
        MappedAt(view, first, n, frame, perm, a);
        ghost var mem1, free1 := mem, |free|;
        var r := MapOne(a, Pte(pa, perm));
        MappingSoFarNext(view, mem0, mem1, mem, root, free0, free1, |free|, first, last, n, r);
        if !r.Done? {
          return r, n;
        }
        n := n + 1;
        if a == last {
          return Done, n;
        }
        a, pa := a + 1, pa + 1;
      }
      MappingSoFarBeyond(view, mem0, mem, root, free0, |free|, first, last, n);
      o := Panic;
    }

    /** mappages(pagetable, va, size, pa, perm), with frame = pa / PGSIZE; n pages were mapped. */
    method Mappages(va: Word, size: Word, frame: nat, perm: Flags) returns (o: Outcome, ghost n: nat)
      requires Valid()
      modifies this
      ensures Valid() && Pool(mem, free) == old(Pool(mem, free))
      ensures Mapping() == Mapped(old(Mapping()), va / PGSIZE, n, frame, perm)
      ensures var first, last := va / PGSIZE, (va + size - 1) % WORD / PGSIZE;
              if size == 0 then o.Panic? && n == 0
              else
                && Stopped(old(Mapping()), old(mem), root, |old(free)|, first, last, n, o)
                && (o.Done? <==> Mappable(old(Mapping()), old(mem), root, |old(free)|, first, last))
      ensures o.NoMemory? ==> free == []
    {
      hide View, Linked, Pool, Separate, Stopped, Mappable;
      if size == 0 {
        return Panic, 0;
      }
      o, n := MapPages(va / PGSIZE, (va + size - 1) % WORD / PGSIZE, frame, perm);
      StoppedDone(old(Mapping()), old(mem), root, |old(free)|, va / PGSIZE, (va + size - 1) % WORD / PGSIZE, n, o);
    }

    /** One turn of the loop of uvmunmap. */
    method UnmapOne(q: nat, doFree: bool) returns (o: Outcome)
      requires Formed() && q < NPAGES
      modifies this
      ensures Formed() && mem.Keys == old(mem.Keys)
      ensures o == UnmapTurn(old(Mapping()), old(mem), q, doFree)
      ensures Mapping() == if o.Done? then old(Mapping()) - {q} else old(Mapping())
      ensures free == if doFree && o.Done? then [old(Mapping())[q].frame] + old(free) else old(free)
      ensures old(Valid()) && (doFree && o.Done? ==> old(Mapping())[q].frame !in old(free)) ==> Valid()
    {
      hide Linked, WalkFrom, View, Separate;
      var p := Walk(q * PGSIZE, false);
      SlotView(mem, root, shape, q);
      if p.None? {
        return Panic;
      }
      var pos := p.value;
      var e := mem[pos.table][pos.idx];
      if e.None? || e.value.flags == TABLE_FLAGS {
        return Panic;
      }
      if doFree && e.value.frame in mem {
        return Astray;
      }
      SetView(mem, root, shape, q, None);
      if Separate(mem, free) {
        SetPool(mem, free, pos, None);
      }
      KeysSame(mem, pos, None);
      if doFree {
        if Separate(mem, free) && e.value.frame !in free {
          PushSeparate(SetEntry(mem, pos, None), free, e.value.frame);
        }
        free := [e.value.frame] + free;
      }
      mem := mem[pos.table := mem[pos.table][pos.idx := None]];
      o := Done;
    }

    /** The loop of uvmunmap, over the n pages from address va to end. */
    method UnmapPages(va: Word, end: Word, doFree: bool, ghost n: nat) returns (o: Outcome)
      requires Formed() && va % PGSIZE == 0 && if va < end then va + n * PGSIZE == end else n == 0
      modifies this
      ensures Formed() && mem.Keys == old(mem.Keys)
      ensures FirstStop(old(Mapping()), old(mem), va / PGSIZE, n, doFree, o)
      ensures o.Done? ==> AllLeaves(old(Mapping()), va / PGSIZE, n)
      ensures o.Done? ==> Mapping() == Unmapped(old(Mapping()), va / PGSIZE, n)
      ensures o.Done? ==> multiset(free) == old(multiset(free)) +
                            if doFree then multiset(Frames(old(Mapping()), va / PGSIZE, n)) else multiset{}
      ensures old(Valid()) && (doFree ==> old(Private(Mapping(), mem, free, va / PGSIZE, n))) ==> Valid()
    {
      hide View, Linked, Separate, Private, AllLeaves, Frames, NoTables, Unmapped, Unmapping, FirstStop;
      ghost var first := va / PGSIZE;
      ghost var view, mem0, frees := Mapping(), mem, multiset(free);
      ghost var keep := Valid() && (doFree ==> Private(Mapping(), mem, free, first, n));
      UnmappingStart(view, mem0, free, first, n, doFree, keep);
      var a := va;
      ghost var i := 0;
      while a < end
        invariant i <= n && a == va + i * PGSIZE
        invariant Formed() && Unmapping(view, mem0, frees, Mapping(), mem, free, first, n, i, doFree, keep)
        decreases n - i
      {
        assert a / PGSIZE == first + i;
        ghost var view1, mem1, free1 := Mapping(), mem, free;
        UnmappingAt(view, mem0, frees, view1, mem1, free1, first, n, i, doFree, keep);
        if a >= MAXVA {
          BeyondView(mem, root, first + i);
          return Panic;
        }
        var r := UnmapOne(a / PGSIZE, doFree);
        if !r.Done? {
          return r;
        }
        UnmappingNext(view, mem0, frees, view1, mem1, free1, mem, free, first, n, i, doFree, keep);
        a, i := a + PGSIZE, i + 1;
      }
      UnmappingEnd(view, mem0, frees, Mapping(), mem, free, first, n, doFree, keep);
      o := Done;
    }

    /** uvmunmap(pagetable, va, npages, do_free).  Unless the end of the range passes 2^64, it is npages pages. */
    method Uvmunmap(va: Word, npages: Word, doFree: bool) returns (o: Outcome)
      requires Formed()
      modifies this
      ensures Formed() && mem.Keys == old(mem.Keys)
      ensures va % PGSIZE != 0 ==> o.Panic? && Mapping() == old(Mapping()) && free == old(free)
      ensures va % PGSIZE == 0 ==>
                var first, n := va / PGSIZE, if va + npages * PGSIZE < WORD then npages else PageCount(va, npages);
                && FirstStop(old(Mapping()), old(mem), first, n, doFree, o)
                && (o.Done? <==>
                    AllLeaves(old(Mapping()), first, n) && (doFree ==> NoTables(old(Mapping()), old(mem), first, n)))
                && (o.Done? ==> Mapping() == Unmapped(old(Mapping()), first, n))
                && (o.Done? ==> multiset(free) == old(multiset(free)) +
                                  if doFree then multiset(Frames(old(Mapping()), first, n)) else multiset{})
                && (old(Valid()) && (doFree ==> old(Private(Mapping(), mem, free, first, n))) ==> Valid())
    {
      hide View, Linked, Separate, Private, AllLeaves, Frames, Unmapped, NoTables, FirstStop, PageCount;
      if va % PGSIZE != 0 {
        return Panic;
      }
      var end := (va + npages * PGSIZE) % WORD;
      o := UnmapPages(va, end, doFree, PageCount(va, npages));
      FirstStopDone(old(Mapping()), old(mem), va / PGSIZE, PageCount(va, npages), doFree, o);
    }

    /** One turn of the loop of freewalk(t). */
    method FreeEntry(t: nat, level: nat, i: nat, ghost start: Memory, ghost frees: multiset<nat>, ghost mem0: Memory,
                     ghost s: Shape)
      returns (o: Outcome)
      requires Linked(mem0, root, s) && t in mem0 && t in s.level && s.level[t] == level
      requires Intact(start, mem0, root, s, t) && i < ENTRIES && Progress(mem, free, start, frees, mem0, root, s, t, i)
      modifies `mem, `free
      ensures o.Done? ==> Progress(mem, free, start, frees, mem0, root, s, t, i + 1)
      ensures !o.Done? ==> Refused(mem0, s, FreedAll(mem0, root, s, t), o)
      decreases level, 0
    {
      hide Linked, Domains, Up, Freed, FreedAll, Below, Minus, Clear, Intact, NoDup, Refused;
      LinkedAt(mem0, root, s, t, i);
      var e := mem[t][i];
      if e.Some? && !Leaf(e.value.flags) {
        if level == 0 {
          EntryFound(mem0, root, s, t, i);
          return Astray;
        }
        ghost var mem1 := mem;
        ChildReady(mem, start, mem0, root, s, t, i);
        o := Freewalk(e.value.frame, level - 1, mem0, s);
        ChildDone(mem, mem1, start, mem0, root, s, t, i, o);
        if o.Done? {
          MinusSet(mem, start, Freed(mem0, root, s, t, i + 1), t, mem[t][i := None]);
          mem := mem[t := mem[t][i := None]];
        }
      } else if e.Some? {
        EntryFound(mem0, root, s, t, i);
        o := Panic;
      } else {
        FreedSkip(mem0, root, s, t, i);
        o := Done;
      }
    }

    /** freewalk(t), on the tables as they were in mem0 when it started.  level is the level of t: below level 0
        there is no table to follow an entry to. */
    method Freewalk(t: nat, level: nat, ghost mem0: Memory, ghost s: Shape) returns (o: Outcome)
      requires Linked(mem0, root, s) && t in mem0 && t in s.level && s.level[t] == level && Intact(mem, mem0, root, s, t)
      modifies `mem, `free
      ensures o.Done? <==> Clear(mem0, s, FreedAll(mem0, root, s, t))
      ensures !o.Done? ==> Refused(mem0, s, FreedAll(mem0, root, s, t), o)
      ensures o.Done? ==> Minus(mem, old(mem), FreedAll(mem0, root, s, t), t)
      ensures o.Done? ==> multiset(free) == old(multiset(free)) + multiset(FreedAll(mem0, root, s, t))
      decreases level, 1
    {
      hide Linked, Freed, FreedAll, Minus, Clear, Intact, Progress, Refused;
      FreewalkStart(mem, free, mem0, root, s, t);
      for i := 0 to ENTRIES
        invariant Progress(mem, free, old(mem), old(multiset(free)), mem0, root, s, t, i)
      {
        var r := FreeEntry(t, level, i, old(mem), old(multiset(free)), mem0, s);
        if !r.Done? {
          RefusedNotClear(mem0, s, FreedAll(mem0, root, s, t), r);
          return r;
        }
      }
      FreewalkEnd(mem, free, old(mem), old(multiset(free)), mem0, root, s, t);
      free := [t] + free;
      mem := mem - {t};
      o := Done;
    }

    /** The first half of uvmfree: the pages below the size go, if there are any. */
    method UnmapUser(sz: Word) returns (o: Outcome)
      requires Formed()
      modifies this
      ensures Formed() && mem.Keys == old(mem.Keys)
      ensures var n := RoundUpWord(sz);
              && FirstStop(old(Mapping()), old(mem), 0, n, true, o)
              && (o.Done? <==> AllLeaves(old(Mapping()), 0, n) && NoTables(old(Mapping()), old(mem), 0, n))
              && (o.Done? ==> Mapping() == Unmapped(old(Mapping()), 0, n))
              && (o.Done? ==> multiset(free) == old(multiset(free)) + multiset(Frames(old(Mapping()), 0, n)))
    {
      hide View, Linked, Private, Frames, AllLeaves, Unmapped, PageCount, RoundUpWord, Separate, NoTables, FirstStop;
      o := Done;
      if sz > 0 {
        o := Uvmunmap(0, RoundUpWord(sz), true);
      } else {
        NothingUnmapped(Mapping(), mem);
      }
    }

    /** uvmfree(pagetable, sz). */
    method Uvmfree(sz: Word) returns (o: Outcome)
      requires Formed()
      modifies this
      ensures var n := RoundUpWord(sz);
              && (o.Done? <==> AllLeaves(old(Mapping()), 0, n) && NoTables(old(Mapping()), old(mem), 0, n)
                               && forall q :: q in old(Mapping()) ==> q < n)
              && (o.Done? ==> mem == map[] && multiset(free) == old(Pool(mem, free)) + multiset(Frames(old(Mapping()), 0, n)))
              && (!o.Done? ==> FirstStop(old(Mapping()), old(mem), 0, n, true, o) || LeftOver(old(Mapping()), n, o))
      ensures sz + PGSIZE <= WORD ==> (o.Done? <==> JustBelow(old(Mapping()), old(mem), sz))
    {
      hide View, Linked, Frames, AllLeaves, Unmapped, Minus, Clear, FreedAll, PageCount, RoundUpWord, NoTables,
        FirstStop, LeftOver, Refused, JustBelow;
      ghost var view, n := Mapping(), RoundUpWord(sz);
      if sz + PGSIZE <= WORD {
        JustBelowIs(view, mem, sz);
      }
      o := UnmapUser(sz);
      if !o.Done? {
        return;
      }
      AllUnmapped(view, n);
      ghost var s, mem1 := shape, mem;
      WholeTree(mem, root, s);
      o := Freewalk(root, 2, mem, s);
      if !o.Done? {
        RefusedPage(mem1, root, s, view, n, o);
      }
    }
  }

  /** The pages mapped are those that begin below sz, all by leaves, and none to a table. */
  ghost predicate JustBelow(view: map<nat, Pte>, mem: Memory, sz: nat) {
    forall q: nat ::
      if q * PGSIZE < sz then q in view && view[q].flags != TABLE_FLAGS && view[q].frame !in mem else q !in view
  }

  lemma JustBelowIs(view: map<nat, Pte>, mem: Memory, sz: Word)
    requires sz + PGSIZE <= WORD
    ensures var n := RoundUpWord(sz);
            JustBelow(view, mem, sz) <==>
            AllLeaves(view, 0, n) && NoTables(view, mem, 0, n) && forall q :: q in view ==> q < n
  {
    var n := RoundUpWord(sz);
    assert forall q: nat :: q in view || q < n ==> (q * PGSIZE < sz <==> q < n);
  }

  /** A page from n on is mapped, by an entry that stops freewalk with o. */
  ghost predicate LeftOver(view: map<nat, Pte>, n: nat, o: Outcome) {
    exists q :: q in view && q >= n && o == if Leaf(view[q].flags) then Panic else Astray
  }

  /** Why freewalk of the tables r stops: a leaf, or an entry without permissions. */
  ghost predicate Refused(mem: Memory, s: Shape, r: seq<nat>, o: Outcome) {
    (o.Panic? && HasEntry(mem, s, r, true)) || (o.Astray? && HasEntry(mem, s, r, false))
  }

  lemma RefusedNotClear(mem: Memory, s: Shape, r: seq<nat>, o: Outcome)
    requires Refused(mem, s, r, o)
    ensures !Clear(mem, s, r)
  {
  }

  lemma RefusedMore(mem: Memory, s: Shape, r: seq<nat>, r': seq<nat>, o: Outcome)
    requires Refused(mem, s, r, o) && forall f :: f in r ==> f in r'
    ensures Refused(mem, s, r', o)
  {
    var f, i :| f in r && f in mem && f in s.level && s.level[f] == 0 && 0 <= i < |mem[f]| && mem[f][i].Some?
                && Leaf(mem[f][i].value.flags) == o.Panic?;
    assert f in r' && mem[f][i].Some?;
  }

  lemma RefusedPage(mem: Memory, root: nat, s: Shape, view: map<nat, Pte>, n: nat, o: Outcome)
    requires Linked(mem, root, s) && View(mem, root) == Unmapped(view, 0, n)
    requires Refused(mem, s, FreedAll(mem, root, s, root), o)
    ensures LeftOver(view, n, o)
  {
    hide FreedAll;
    var t, i :| t in mem && t in s.level && s.level[t] == 0 && 0 <= i < |mem[t]| && mem[t][i].Some?
                && Leaf(mem[t][i].value.flags) == o.Panic?;
    LinkedAt(mem, root, s, t, 0);
    EntryReached(mem, root, s, t, i);
    var q: nat :| q < NPAGES && Lookup(mem, root, q) == mem[t][i];
    assert q in View(mem, root) && View(mem, root)[q] == mem[t][i].value;
    UnmappedAt(view, 0, n, q);
  }

  // ---------------------------------------------------------------- how many table pages a mapping takes

  /** The table pages walk has to add for va. */
  function Missing(mem: Memory, root: nat, va: nat): nat {
    (if HasTable(mem, root, 1, va) then 0 else 1) + (if HasTable(mem, root, 0, va) then 0 else 1)
  }

  /** The table pages that mapping n pages from `first` on has to add: one for each stretch of 2^18 pages and for
      each of 512 that has none. */
  function Needed(mem: Memory, root: nat, first: nat, n: nat): nat {
    if n == 0 then 0
    else
      Needed(mem, root, first, n - 1) + NewTables(mem, root, 1, first, first + n - 1)
      + NewTables(mem, root, 0, first, first + n - 1)
  }

  /** Page q is the first of the stretch from `first` on that needs its table at level l, and there is none. */
  function NewTables(mem: Memory, root: nat, l: nat, first: nat, q: nat): nat {
    if (q == first || q % Span(l) == 0) && !HasTable(mem, root, l, q * PGSIZE) then 1 else 0
  }

  /** The tables of mem are those of mem0 and the ones on the way to va, down to the given level. */
  ghost predicate Grown(mem0: Memory, mem: Memory, root: nat, va: nat, level: nat) {
    forall l: nat, va': nat :: l <= 1 ==>
      (HasTable(mem, root, l, va') <==> HasTable(mem0, root, l, va') || (l >= level && Near(l, va, va')))
  }

  /** How far walk has come: free0 pages were free at first. */
  ghost predicate Growing(mem0: Memory, free0: nat, mem: Memory, free: nat, root: nat, va: nat, level: nat) {
    && Grown(mem0, mem, root, va, level)
    && free0 == free + (if level <= 1 && !HasTable(mem0, root, 1, va) then 1 else 0)
                + (if level == 0 && !HasTable(mem0, root, 0, va) then 1 else 0)
  }

  lemma GrowingStart(mem: Memory, free: nat, root: nat, va: nat)
    ensures Growing(mem, free, mem, free, root, va, 2)
  {
  }

  lemma GrowingEnd(mem0: Memory, free0: nat, mem: Memory, free: nat, root: nat, va: nat)
    requires Growing(mem0, free0, mem, free, root, va, 0)
    ensures free0 == free + Missing(mem0, root, va) && Grown(mem0, mem, root, va, 0)
  {
  }

  /** On the way to va, an entry of a table says whether there is a table one level down. */
  lemma OnTheWay(mem: Memory, root: nat, t: nat, level: nat, va: nat)
    requires 0 < level <= 2 && Reaches(mem, root, 2, t, level, va) && t in mem && |mem[t]| == ENTRIES
    ensures HasTable(mem, root, level - 1, va) <==> mem[t][Px(level, va)].Some?
    ensures if level == 2 then t == root else HasTable(mem, root, 1, va) && t == mem[root][Px(2, va)].value.frame
  {
    hide Px;
    if level == 1 {
      assert Reaches(mem, mem[root][Px(2, va)].value.frame, 1, t, 1, va);
    }
  }

  lemma GrowingOld(mem0: Memory, free0: nat, mem: Memory, free: nat, root: nat, s: Shape, t: nat, level: nat, va: nat)
    requires Growing(mem0, free0, mem, free, root, va, level) && 0 < level <= 2
    requires Reaches(mem, root, 2, t, level, va) && t in mem && |mem[t]| == ENTRIES && mem[t][Px(level, va)].Some?
    ensures Growing(mem0, free0, mem, free, root, va, level - 1)
  {
    OnTheWay(mem, root, t, level, va);
    hide Px;
    assert HasTable(mem0, root, level - 1, va);
  }

  /** Without a free page for the next table, walk cannot come to va. */
  lemma GrowingEmpty(mem0: Memory, free0: nat, mem: Memory, free: nat, root: nat, t: nat, level: nat, va: nat)
    requires Growing(mem0, free0, mem, free, root, va, level) && 0 < level <= 2
    requires Reaches(mem, root, 2, t, level, va) && t in mem && |mem[t]| == ENTRIES && mem[t][Px(level, va)].None?
    ensures free == 0 ==> free0 < Missing(mem0, root, va)
  {
    OnTheWay(mem, root, t, level, va);
    HasTableWalk(mem0, root, va);
    hide Px, HasTable;
  }

  lemma GrowingNew(mem0: Memory, free0: nat, mem: Memory, free: nat, root: nat, s: Shape, t: nat, level: nat, va: nat,
                   n: nat)
    requires Growing(mem0, free0, mem, free, root, va, level) && 0 < level <= 2 && free > 0
    requires Linked(mem, root, s) && n !in mem
    requires Reaches(mem, root, 2, t, level, va) && t in mem && |mem[t]| == ENTRIES && mem[t][Px(level, va)].None?
    ensures Growing(mem0, free0, Link(mem, Pos(t, Px(level, va)), n), free - 1, root, va, level - 1)
  {
    OnTheWay(mem, root, t, level, va);
    hide Px, HasTable, Linked, Link, Reaches;
    forall l: nat, va': nat | l <= 1
      ensures HasTable(Link(mem, Pos(t, Px(level, va)), n), root, l, va') <==>
              HasTable(mem, root, l, va') || (l == level - 1 && Near(l, va, va'))
    {
      LinkHasTable(mem, root, s, t, level, va, n, l, va');
    }
  }

  lemma GrownSet(mem0: Memory, mem: Memory, root: nat, s: Shape, q: nat, e: Option<Pte>)
    requires Linked(mem, root, s) && q < NPAGES && WalkFrom(mem, root, 2, q * PGSIZE).Some?
    requires Grown(mem0, mem, root, q * PGSIZE, 0)
    ensures var p := WalkFrom(mem, root, 2, q * PGSIZE).value;
            p.table in mem && p.idx < |mem[p.table]| && Grown(mem0, SetEntry(mem, p, e), root, q * PGSIZE, 0)
  {
    SlotOk(mem, root, s, q * PGSIZE, e);
    WalkPath(mem, root, s, q * PGSIZE);
    hide Px, HasTable, Linked, WalkFrom, SetEntry;
    var p := WalkFrom(mem, root, 2, q * PGSIZE).value;
    forall l: nat, va': nat | l <= 1
      ensures HasTable(SetEntry(mem, p, e), root, l, va') <==> HasTable(mem, root, l, va')
    {
      SetHasTable(mem, root, s, p, e, l, va');
    }
  }

  /** What mappages does at page first + k, having mapped the pages before it. */
  ghost function Turn(view: map<nat, Pte>, mem: Memory, root: nat, free: nat, first: nat, k: nat): Outcome {
    if first + k >= NPAGES then Panic
    else if free < Needed(mem, root, first, k + 1) then NoMemory
    else if first + k in view then Panic
    else Done
  }

  /** mappages maps n pages and stops there: at the last page, or where it cannot go on. */
  ghost predicate Stopped(view: map<nat, Pte>, mem: Memory, root: nat, free: nat, first: nat, last: nat, n: nat,
                          o: Outcome) {
    && (forall k :: 0 <= k < n ==> Turn(view, mem, root, free, first, k).Done?)
    && if o.Done? then first + n == last + 1 && n > 0
       else o == Turn(view, mem, root, free, first, n) && !(first <= last < first + n)
  }

  /** All pages can be mapped: they are below MAXVA and unmapped, and there are pages for the tables. */
  ghost predicate Mappable(view: map<nat, Pte>, mem: Memory, root: nat, free: nat, first: nat, last: nat) {
    && first <= last < NPAGES && Needed(mem, root, first, last + 1 - first) <= free
    && forall q :: first <= q <= last ==> q !in view
  }

  lemma {:induction false} NeededMore(mem: Memory, root: nat, first: nat, n: nat, m: nat)
    requires n <= m
    ensures Needed(mem, root, first, n) <= Needed(mem, root, first, m)
    decreases m - n
  {
    if n < m {
      NeededMore(mem, root, first, n, m - 1);
    }
  }

  lemma StoppedDone(view: map<nat, Pte>, mem: Memory, root: nat, free: nat, first: nat, last: nat, n: nat, o: Outcome)
    requires Stopped(view, mem, root, free, first, last, n, o)
    ensures o.Done? <==> Mappable(view, mem, root, free, first, last)
  {
    hide Needed;
    if o.Done? {
      assert Turn(view, mem, root, free, first, n - 1).Done?;
      forall q | first <= q <= last ensures q !in view {
        assert Turn(view, mem, root, free, first, q - first).Done?;
      }
    } else if Mappable(view, mem, root, free, first, last) {
      NeededMore(mem, root, first, n + 1, last + 1 - first);
    }
  }

  /** n pages from `first` on are mapped and the last is not among them. */
  ghost predicate MappingSoFar(view: map<nat, Pte>, mem0: Memory, mem: Memory, root: nat, free0: nat, free: nat,
                           first: nat, last: nat, n: nat)
  {
    && (forall k :: 0 <= k < n ==> Turn(view, mem0, root, free0, first, k).Done?) && !(first <= last < first + n)
    && free0 == free + Needed(mem0, root, first, n)
    && forall l: nat, q: nat :: l <= 1 && first + n <= q < NPAGES ==>
         (HasTable(mem, root, l, q * PGSIZE) <==>
          HasTable(mem0, root, l, q * PGSIZE) || (n > 0 && q / Span(l) == (first + n - 1) / Span(l)))
  }

  lemma MappingSoFarStart(view: map<nat, Pte>, mem: Memory, root: nat, free: nat, first: nat, last: nat)
    ensures MappingSoFar(view, mem, mem, root, free, free, first, last, 0)
  {
  }

  /** The tables still missing at the next page are those no earlier page shares. */
  lemma MissingNext(view: map<nat, Pte>, mem0: Memory, mem: Memory, root: nat, free0: nat, free: nat, first: nat,
                    last: nat, n: nat)
    requires MappingSoFar(view, mem0, mem, root, free0, free, first, last, n) && first + n < NPAGES
    ensures Needed(mem0, root, first, n + 1) == Needed(mem0, root, first, n) + Missing(mem, root, (first + n) * PGSIZE)
  {
    hide HasTable, Turn;
    SpanStep(0, first + n);
    SpanStep(1, first + n);
  }

  lemma SpanStep(l: nat, q: nat)
    ensures q > 0 ==> (q / Span(l) == (q - 1) / Span(l) <==> q % Span(l) != 0)
  {
  }

  lemma MappingSoFarNext(view: map<nat, Pte>, mem0: Memory, mem: Memory, mem': Memory, root: nat, free0: nat, free: nat,
                         free': nat, first: nat, last: nat, n: nat, r: Outcome)
    requires MappingSoFar(view, mem0, mem, root, free0, free, first, last, n) && first + n < NPAGES
    requires r == if free < Missing(mem, root, (first + n) * PGSIZE) then NoMemory
                  else if first + n in view then Panic else Done
    requires r.Done? ==>
               && free' == free - Missing(mem, root, (first + n) * PGSIZE)
               && Grown(mem, mem', root, (first + n) * PGSIZE, 0)
    ensures r == Turn(view, mem0, root, free0, first, n)
    ensures !r.Done? ==> Stopped(view, mem0, root, free0, first, last, n, r)
    ensures r.Done? && first + n == last ==> Stopped(view, mem0, root, free0, first, last, n + 1, r)
    ensures r.Done? && first + n != last ==> MappingSoFar(view, mem0, mem', root, free0, free', first, last, n + 1)
  {
    MissingNext(view, mem0, mem, root, free0, free, first, last, n);
    hide HasTable, Needed, Missing;
    if r.Done? {
      forall l: nat, q: nat | l <= 1 && first + n + 1 <= q < NPAGES
        ensures HasTable(mem', root, l, q * PGSIZE) <==>
                HasTable(mem0, root, l, q * PGSIZE) || q / Span(l) == (first + n) / Span(l)
      {
        NearPages(l, first + n, q);
        SpanBetween(l, first + n, q);
      }
    }
  }

  lemma SpanBetween(l: nat, a: nat, q: nat)
    requires a < q
    ensures a > 0 && q / Span(l) == (a - 1) / Span(l) ==> q / Span(l) == a / Span(l)
  {
  }

  lemma MappingSoFarBeyond(view: map<nat, Pte>, mem0: Memory, mem: Memory, root: nat, free0: nat, free: nat, first: nat,
                           last: nat, n: nat)
    requires MappingSoFar(view, mem0, mem, root, free0, free, first, last, n) && first + n >= NPAGES
    ensures Stopped(view, mem0, root, free0, first, last, n, Panic)
  {
  }

  /** PGROUNDUP(sz) / PGSIZE, in 64 bits. */
  function RoundUpWord(sz: Word): (n: Word)
    ensures n * PGSIZE < WORD
    ensures if sz + PGSIZE <= WORD then sz <= n * PGSIZE < sz + PGSIZE else n == 0
  {
    (sz + PGSIZE - 1) % WORD / PGSIZE
  }

  lemma NothingUnmapped(view: map<nat, Pte>, mem: Memory)
    ensures RoundUpWord(0) == 0
    ensures AllLeaves(view, 0, 0) && NoTables(view, mem, 0, 0) && FirstStop(view, mem, 0, 0, true, Done)
    ensures Unmapped(view, 0, 0) == view && Frames(view, 0, 0) == []
  {
  }

  lemma AllUnmapped(view: map<nat, Pte>, n: nat)
    ensures Unmapped(view, 0, n) == map[] <==> forall q :: q in view ==> q < n
  {
    forall q ensures q in Unmapped(view, 0, n) <==> q in view && q >= n {
      if q >= 0 {
        UnmappedAt(view, 0, n, q);
      }
    }
  }

  /** What freewalk of the root needs and does. */
  lemma WholeTree(mem: Memory, root: nat, s: Shape)
    requires Linked(mem, root, s)
    ensures root in mem && root in s.level && s.level[root] == 2 && Intact(mem, mem, root, s, root)
    ensures Clear(mem, s, FreedAll(mem, root, s, root)) <==> View(mem, root) == map[]
    ensures multiset(FreedAll(mem, root, s, root)) == multiset(mem.Keys)
    ensures forall m :: Minus(m, mem, FreedAll(mem, root, s, root), root) ==> m == map[]
  {
    ClearRoot(mem, root, s);
    FreedRoot(mem, root, s);
    hide Linked, FreedAll;
    NoDupMultiset(FreedAll(mem, root, s, root), mem.Keys);
  }

  lemma {:induction false} NoDupMultiset(r: seq<nat>, keys: set<nat>)
    requires NoDup(r) && forall f :: f in r <==> f in keys
    ensures multiset(r) == multiset(keys)
  {
    if r == [] {
      assert keys == {};
    } else {
      var init, last := r[..|r| - 1], r[|r| - 1];
      assert r == init + [last];
      assert last !in init;
      NoDupMultiset(init, keys - {last});
      assert keys == (keys - {last}) + {last};
    }
  }

  /** After the first i entries of t: the tables below them are gone and free, none of them mapped anything, and
      the other entries of t are untouched. */
  ghost predicate Progress(mem: Memory, free: seq<nat>, start: Memory, frees: multiset<nat>,
                           mem0: Memory, root: nat, s: Shape, t: nat, i: nat)
    requires Linked(mem0, root, s) && t in mem0 && t in s.level
  {
    && i <= ENTRIES && t in mem && |mem[t]| == ENTRIES == |mem0[t]|
    && (forall j :: i <= j < ENTRIES ==> mem[t][j] == mem0[t][j])
    && Minus(mem, start, Freed(mem0, root, s, t, i), t)
    && multiset(free) == frees + multiset(Freed(mem0, root, s, t, i))
    && Clear(mem0, s, Freed(mem0, root, s, t, i))
    && (s.level[t] == 0 ==> forall j :: 0 <= j < i ==> mem0[t][j] == None)
  }

  /** The tables at and below t are still as they were. */
  ghost predicate Intact(mem: Memory, mem0: Memory, root: nat, s: Shape, t: nat)
    requires Linked(mem0, root, s) && t in mem0
  {
    forall f :: f == t || Below(mem0, root, s, f, t, ENTRIES) ==> f in mem && f in mem0 && mem[f] == mem0[f]
  }

  lemma FreewalkStart(mem: Memory, free: seq<nat>, mem0: Memory, root: nat, s: Shape, t: nat)
    requires Linked(mem0, root, s) && t in mem0 && t in s.level && Intact(mem, mem0, root, s, t)
    ensures Progress(mem, free, mem, multiset(free), mem0, root, s, t, 0)
  {
    hide Linked, Domains, Down, Up, Intact, Freed, Minus, Clear;
    LinkedAt(mem0, root, s, t, 0);
    StartFacts(mem, mem0, root, s, t);
  }

  lemma StartFacts(mem: Memory, mem0: Memory, root: nat, s: Shape, t: nat)
    requires Linked(mem0, root, s) && t in mem0 && Intact(mem, mem0, root, s, t)
    ensures t in mem && mem[t] == mem0[t] && Freed(mem0, root, s, t, 0) == []
    ensures Minus(mem, mem, [], t) && Clear(mem0, s, [])
  {
    hide Linked, Below;
  }

  lemma ChildReady(mem: Memory, start: Memory, mem0: Memory, root: nat, s: Shape, t: nat, i: nat)
    requires Linked(mem0, root, s) && t in mem0 && Intact(start, mem0, root, s, t) && i < ENTRIES == |mem0[t]|
    requires s.level[t] > 0 && mem0[t][i].Some? && Minus(mem, start, Freed(mem0, root, s, t, i), t)
    ensures mem0[t][i].value.frame in mem0 && s.level[mem0[t][i].value.frame] < s.level[t]
    ensures Intact(mem, mem0, root, s, mem0[t][i].value.frame)
  {
    LinkedAt(mem0, root, s, t, i);
    FreedIs(mem0, root, s, t, i);
    var c := mem0[t][i].value.frame;
    forall f | f == c || Below(mem0, root, s, f, c, ENTRIES) ensures f in mem && f in mem0 && mem[f] == mem0[f] {
      assert f in mem0;
      BelowEntry(mem0, root, s, f, t, i);
      assert Below(mem0, root, s, f, t, ENTRIES);
    }
  }

  lemma ChildDone(mem: Memory, mem1: Memory, start: Memory, mem0: Memory, root: nat, s: Shape, t: nat, i: nat, o: Outcome)
    requires Linked(mem0, root, s) && t in mem0 && i < ENTRIES == |mem0[t]| && s.level[t] > 0 && mem0[t][i].Some?
    requires mem0[t][i].value.frame in mem0 && s.level[mem0[t][i].value.frame] < s.level[t] && t in mem1
    requires Minus(mem1, start, Freed(mem0, root, s, t, i), t) && Clear(mem0, s, Freed(mem0, root, s, t, i))
    requires o.Done? ==> Minus(mem, mem1, FreedAll(mem0, root, s, mem0[t][i].value.frame), mem0[t][i].value.frame)
    requires o.Done? ==> Clear(mem0, s, FreedAll(mem0, root, s, mem0[t][i].value.frame))
    requires !o.Done? ==> Refused(mem0, s, FreedAll(mem0, root, s, mem0[t][i].value.frame), o)
    ensures Freed(mem0, root, s, t, i + 1) == Freed(mem0, root, s, t, i) + FreedAll(mem0, root, s, mem0[t][i].value.frame)
    ensures o.Done? ==> Minus(mem, start, Freed(mem0, root, s, t, i + 1), t) && t in mem && mem[t] == mem1[t]
    ensures o.Done? ==> Clear(mem0, s, Freed(mem0, root, s, t, i + 1))
    ensures !o.Done? ==> Refused(mem0, s, FreedAll(mem0, root, s, t), o)
  {
    hide Linked, Freed, FreedAll, Below, Clear, Minus, Refused;
    var c := mem0[t][i].value.frame;
    var a, b := Freed(mem0, root, s, t, i), FreedAll(mem0, root, s, c);
    FreedStep(mem0, root, s, t, i);
    ClearJoin(mem0, s, a, b);
    if o.Done? {
      MinusTwice(mem, mem1, start, a, b, t, c);
    } else {
      FreedPart(mem0, root, s, t, i + 1);
      RefusedMore(mem0, s, b, FreedAll(mem0, root, s, t), o);
    }
  }

  lemma FreedStep(mem: Memory, root: nat, s: Shape, t: nat, i: nat)
    requires Linked(mem, root, s) && t in mem && i < ENTRIES == |mem[t]| && s.level[t] > 0 && mem[t][i].Some?
    requires mem[t][i].value.frame in mem && s.level[mem[t][i].value.frame] < s.level[t]
    ensures var b := FreedAll(mem, root, s, mem[t][i].value.frame);
            t !in b && mem[t][i].value.frame in b && Freed(mem, root, s, t, i + 1) == Freed(mem, root, s, t, i) + b
  {
    var c := mem[t][i].value.frame;
    FreedAllIs(mem, root, s, c);
    hide Linked, FreedAll;
  }

  lemma ClearJoin(mem: Memory, s: Shape, a: seq<nat>, b: seq<nat>)
    ensures Clear(mem, s, a + b) <==> Clear(mem, s, a) && Clear(mem, s, b)
  {
    if Clear(mem, s, a + b) {
      assert forall f :: f in a ==> f in a + b;
      assert forall f :: f in b ==> f in a + b;
    }
  }

  lemma MinusTwice(mem: Memory, mem1: Memory, start: Memory, a: seq<nat>, b: seq<nat>, t: nat, c: nat)
    requires Minus(mem1, start, a, t) && Minus(mem, mem1, b, c) && c in b && t !in b && t in mem1
    ensures Minus(mem, start, a + b, t) && t in mem && mem[t] == mem1[t]
  {
  }

  lemma {:induction false} FreedPart(mem: Memory, root: nat, s: Shape, t: nat, i: nat)
    requires Linked(mem, root, s) && t in mem && i <= ENTRIES
    ensures forall f :: f in Freed(mem, root, s, t, i) ==> f in FreedAll(mem, root, s, t)
    decreases ENTRIES - i
  {
    if i < ENTRIES {
      FreedPart(mem, root, s, t, i + 1);
      LinkedAt(mem, root, s, t, i);
    }
  }

  lemma MinusSet(mem: Memory, start: Memory, r: seq<nat>, t: nat, table: Table)
    requires Minus(mem, start, r, t) && t in mem
    ensures Minus(mem[t := table], start, r, t)
  {
  }

  lemma EntryFound(mem: Memory, root: nat, s: Shape, t: nat, i: nat)
    requires Linked(mem, root, s) && t in mem && i < |mem[t]| && s.level[t] == 0 && mem[t][i].Some?
    ensures Refused(mem, s, FreedAll(mem, root, s, t), if Leaf(mem[t][i].value.flags) then Panic else Astray)
  {
    assert t in FreedAll(mem, root, s, t);
  }

  lemma FreedSkip(mem: Memory, root: nat, s: Shape, t: nat, i: nat)
    requires Linked(mem, root, s) && t in mem && i < ENTRIES == |mem[t]| && mem[t][i].None?
    ensures Freed(mem, root, s, t, i + 1) == Freed(mem, root, s, t, i)
  {
  }

  lemma FreewalkEnd(mem: Memory, free: seq<nat>, start: Memory, frees: multiset<nat>,
                    mem0: Memory, root: nat, s: Shape, t: nat)
    requires Linked(mem0, root, s) && t in mem0 && t in s.level
    requires Progress(mem, free, start, frees, mem0, root, s, t, ENTRIES)
    ensures Minus(mem - {t}, start, FreedAll(mem0, root, s, t), t) && Clear(mem0, s, FreedAll(mem0, root, s, t))
    ensures multiset([t] + free) == frees + multiset(FreedAll(mem0, root, s, t))
  {
    hide Linked, Freed;
    ClearJoin(mem0, s, Freed(mem0, root, s, t, ENTRIES), [t]);
  }

  /** A page table maps nothing exactly when none of its lowest-level tables does. */
  lemma ClearRoot(mem: Memory, root: nat, s: Shape)
    requires Linked(mem, root, s)
    ensures Clear(mem, s, FreedAll(mem, root, s, root)) <==> View(mem, root) == map[]
  {
    FreedRoot(mem, root, s);
    if View(mem, root) == map[] {
      forall f, i | f in mem && s.level[f] == 0 && 0 <= i < |mem[f]| ensures mem[f][i] == None {
        EmptyEntry(mem, root, s, f, i);
      }
    } else {
      var q :| q in View(mem, root);
      SlotView(mem, root, s, q);
      WalkPath(mem, root, s, q * PGSIZE);
      var p := WalkFrom(mem, root, 2, q * PGSIZE).value;
      assert p.table in FreedAll(mem, root, s, root) && mem[p.table][p.idx].Some?;
    }
  }

  lemma EmptyEntry(mem: Memory, root: nat, s: Shape, f: nat, i: nat)
    requires Linked(mem, root, s) && View(mem, root) == map[] && f in mem && s.level[f] == 0 && i < |mem[f]|
    ensures mem[f][i] == None
  {
    LinkedAt(mem, root, s, f, 0);
    EntryReached(mem, root, s, f, i);
    var q: nat :| q < NPAGES && Lookup(mem, root, q) == mem[f][i];
    assert q !in View(mem, root);
  }

  /** Where uvmunmap stands after i pages; keep says that the free list stays sound. */
  ghost predicate Unmapping(view0: map<nat, Pte>, mem0: Memory, frees: multiset<nat>, view: map<nat, Pte>, mem: Memory,
                            free: seq<nat>, first: nat, n: nat, i: nat, doFree: bool, keep: bool)
  {
    && i <= n && mem.Keys == mem0.Keys && AllLeaves(view0, first, i) && view == Unmapped(view0, first, i)
    && (forall q: nat :: first <= q < first + i ==> UnmapTurn(view0, mem0, q, doFree).Done?)
    && multiset(free) == frees + (if doFree then multiset(Frames(view0, first, i)) else multiset{})
    && (keep ==> Separate(mem, free) && (doFree ==> Private(view, mem, free, first + i, n - i)))
  }

  lemma UnmappingStart(view: map<nat, Pte>, mem: Memory, free: seq<nat>, first: nat, n: nat, doFree: bool, keep: bool)
    requires keep ==> Separate(mem, free) && (doFree ==> Private(view, mem, free, first, n))
    ensures Unmapping(view, mem, multiset(free), view, mem, free, first, n, 0, doFree, keep)
  {
    hide Private, Separate;
    FramesStep(view, first, 0);
  }

  /** What holds when page first + i is reached. */
  lemma UnmappingAt(view0: map<nat, Pte>, mem0: Memory, frees: multiset<nat>, view: map<nat, Pte>, mem: Memory,
                    free: seq<nat>, first: nat, n: nat, i: nat, doFree: bool, keep: bool)
    requires Unmapping(view0, mem0, frees, view, mem, free, first, n, i, doFree, keep) && i < n
    ensures mem.Keys == mem0.Keys && (keep ==> Separate(mem, free))
    ensures UnmapTurn(view, mem, first + i, doFree) == UnmapTurn(view0, mem0, first + i, doFree)
    ensures forall o :: o == UnmapTurn(view, mem, first + i, doFree) && !o.Done? ==>
              FirstStop(view0, mem0, first, n, doFree, o)
    ensures first + i !in view ==> FirstStop(view0, mem0, first, n, doFree, Panic)
    ensures keep && doFree && first + i in view ==> view[first + i].frame !in free
  {
    hide Frames, Separate, AllLeaves;
    UnmappedAt(view0, first, i, first + i);
    if keep && doFree {
      PrivateFirst(view, mem, free, first + i, n - i);
    }
    hide Private;
    assert forall f :: f in mem <==> f in mem0;
  }

  lemma UnmappingNext(view0: map<nat, Pte>, mem0: Memory, frees: multiset<nat>, view: map<nat, Pte>, mem: Memory,
                      free: seq<nat>, mem': Memory, free': seq<nat>, first: nat, n: nat, i: nat, doFree: bool, keep: bool)
    requires Unmapping(view0, mem0, frees, view, mem, free, first, n, i, doFree, keep) && i < n
    requires UnmapTurn(view, mem, first + i, doFree).Done? && mem'.Keys == mem.Keys
    requires free' == if doFree then [view[first + i].frame] + free else free
    requires keep ==> Separate(mem', free')
    ensures Unmapping(view0, mem0, frees, view - {first + i}, mem', free', first, n, i + 1, doFree, keep)
  {
    hide Separate, Private, AllLeaves, Frames;
    UnmappedAt(view0, first, i, first + i);
    assert forall f :: f in mem <==> f in mem0;
    UnmappedNext(view0, first, i);
    hide Unmapped;
    FramesStep(view0, first, i);
    if keep {
      PrivateRest(view, mem, free, first + i, n - i, mem', doFree);
    }
  }

  lemma UnmappingEnd(view0: map<nat, Pte>, mem0: Memory, frees: multiset<nat>, view: map<nat, Pte>, mem: Memory,
                     free: seq<nat>, first: nat, n: nat, doFree: bool, keep: bool)
    requires Unmapping(view0, mem0, frees, view, mem, free, first, n, n, doFree, keep)
    ensures mem.Keys == mem0.Keys && AllLeaves(view0, first, n) && view == Unmapped(view0, first, n)
    ensures FirstStop(view0, mem0, first, n, doFree, Done)
    ensures multiset(free) == frees + (if doFree then multiset(Frames(view0, first, n)) else multiset{})
    ensures keep ==> Separate(mem, free)
  {
  }

  lemma KeysSame(mem: Memory, p: Pos, e: Option<Pte>)
    requires p.table in mem && p.idx < |mem[p.table]|
    ensures SetEntry(mem, p, e).Keys == mem.Keys
  {
  }

  lemma FramesStep(view: map<nat, Pte>, first: nat, i: nat)
    ensures AllLeaves(view, first, 0) && Frames(view, first, 0) == []
    ensures AllLeaves(view, first, i) && first + i in view && view[first + i].flags != TABLE_FLAGS ==>
              AllLeaves(view, first, i + 1) && Frames(view, first, i + 1) == Frames(view, first, i) + [view[first + i].frame]
  {
  }

  /** The slot of a page holds what the view says of the page. */
  lemma SlotView(mem: Memory, root: nat, s: Shape, q: nat)
    requires Linked(mem, root, s) && q < NPAGES
    ensures var p := WalkFrom(mem, root, 2, q * PGSIZE);
            if p.None? then q !in View(mem, root)
            else
              && p.value.table in mem && p.value.idx < |mem[p.value.table]|
              && (mem[p.value.table][p.value.idx].Some? <==> q in View(mem, root))
              && (q in View(mem, root) ==> mem[p.value.table][p.value.idx] == Some(View(mem, root)[q]))
  {
    if WalkFrom(mem, root, 2, q * PGSIZE).Some? {
      SlotOk(mem, root, s, q * PGSIZE, None);
    }
    hide WalkFrom, Linked;
  }

  lemma PrivateFirst(view: map<nat, Pte>, mem: Memory, free: seq<nat>, first: nat, n: nat)
    requires Private(view, mem, free, first, n) && 0 < n
    ensures first in view ==> view[first].frame !in mem && view[first].frame !in free
  {
  }

  lemma PrivateRest(view: map<nat, Pte>, mem: Memory, free: seq<nat>, first: nat, n: nat, mem': Memory, doFree: bool)
    requires doFree ==> Private(view, mem, free, first, n)
    requires 0 < n && first in view && mem'.Keys == mem.Keys
    ensures doFree ==> Private(view - {first}, mem', [view[first].frame] + free, first + 1, n - 1)
  {
  }

  lemma PushSeparate(mem: Memory, free: seq<nat>, f: nat)
    requires Separate(mem, free) && f !in mem && f !in free
    ensures Separate(mem, [f] + free)
  {
    NoDupJoin([f], free);
  }

  lemma SetPool(mem: Memory, free: seq<nat>, p: Pos, e: Option<Pte>)
    requires p.table in mem && p.idx < |mem[p.table]| && Separate(mem, free)
    ensures SetEntry(mem, p, e).Keys == mem.Keys && Separate(SetEntry(mem, p, e), free)
    ensures Pool(SetEntry(mem, p, e), free) == Pool(mem, free)
  {
    assert SetEntry(mem, p, e).Keys == mem.Keys;
  }

  lemma BeyondView(mem: Memory, root: nat, q: nat)
    requires q >= NPAGES
    ensures q !in View(mem, root)
  {
  }

  lemma LinkEntry(mem: Memory, p: Pos, n: nat)
    requires p.table in mem && p.idx < |mem[p.table]| && n !in mem
    ensures var m := Link(mem, p, n);
            p.table in m && |m[p.table]| == |mem[p.table]| && m[p.table][p.idx] == Some(Pte(n, TABLE_FLAGS))
  {
  }
}
