/** The user-level allocator as it runs: one heap of headers, the roving pointer freep, and sbrk. */
module Allocator {
  import opened Basics
  import opened HeapRing
  import opened Malloc

  /** What malloc and morecore come to.  Overrun: sbrk moved the break by fewer bytes than the code goes on to
      hand out, because its int argument is not the uint product it was given; the model stops there. */
  datatype Grant = Null | Block(bp: nat) | Overrun

  /** Units for nbytes, plus one for the header. */
  function UnitsFor(nbytes: nat): (n: nat)
    ensures n >= 1 && nbytes <= (n - 1) * HDR < nbytes + HDR
  {
    (nbytes + HDR - 1) / HDR + 1
  }

  /** The int that sbrk receives for nu units. */
  function SbrkArg(nu: nat): int {
    var x := nu * HDR % 0x1_0000_0000;
    if x >= 0x8000_0000 then x - 0x1_0000_0000 else x
  }

  /** sbrk is asked for what the allocator goes on to use exactly when that fits an int, and for less
      otherwise. */
  lemma SbrkArgExact(nu: nat)
    ensures SbrkArg(nu) <= nu * HDR
    ensures SbrkArg(nu) == nu * HDR <==> nu * HDR < 0x8000_0000
  {
  }

  /** The units morecore asks for. */
  function Need(nunits: nat): nat {
    if nunits < 4096 then 4096 else nunits
  }

  /** sbrk turns the request down. */
  predicate Refused(nunits: nat, avail: nat) {
    SbrkArg(Need(nunits)) > avail * HDR
  }

  predicate FitsInt(nunits: nat) {
    nunits * HDR < 0x8000_0000
  }

  class Arena {
    const base: nat
    var h: Heap
    var freep: nat   // 0 before the first malloc
    var brk: nat     // first unit above the heap
    var avail: nat   // units sbrk can still grant
    ghost var list: seq<nat>
    ghost var live: set<nat>
    ghost var got: nat      // units sbrk has granted
    ghost const start: nat  // the break at first
    ghost const room: nat   // units sbrk could grant at first

    ghost predicate Valid()
      reads this
    {
      && 0 < base < brk && brk == start + got && got + avail == room
      && (freep == 0 ==> list == [] && live == {} && got == 0)
      && (freep != 0 ==> freep in list && Gaps(h, list) && HeapOk(h, list, live, base, brk, got))
    }

    constructor (base: nat, brk: nat, avail: nat)
      requires 0 < base < brk
      ensures Valid() && freep == 0 && list == [] && live == {} && this.avail == avail && start == brk && room == avail
    {
      this.base, this.brk, this.avail, freep, h := base, brk, avail, 0, map[];
      list, live, got, start, room := [], {}, 0, brk, avail;
    }

    /** The search loop of free, from wherever freep points: the block that bp belongs after. */
    method FindSpot(bp: nat) returns (p: nat)
      requires Valid() && bp in live
      ensures exists k: nat :: k < |list| && Belongs(h, list, k, bp) && p == list[k]
    {
      hide Ring, LiveOk, Ascending, Belongs;
      ghost var k := PlaceOf(h, list, live, base, brk, bp);
      p := freep;
      ghost var i :| 0 <= i < |list| && list[i] == p;
      SearchStops(h, list, k, bp, i);
      while !(bp > p && bp < h[p].ptr) && !(p >= h[p].ptr && (bp > p || bp < h[p].ptr))
        invariant 0 <= i < |list| && p == list[i] && p in h
        invariant (bp > p && bp < h[p].ptr) || (p >= h[p].ptr && (bp > p || bp < h[p].ptr)) <==> i == k
        decreases if i <= k then k - i else k + |list| - i
      {
        RingAt(h, list, i);
        p := h[p].ptr;
        i := if i + 1 < |list| then i + 1 else 0;
        SearchStops(h, list, k, bp, i);
      }
    }

    /** bp joins the list after p. */
    method Join(p: nat, bp: nat)
      requires p in h && bp in h && p != bp && h[p].ptr in h
      modifies this`h
      ensures h == Coalesced(old(h), p, bp)
    {
      // bp swallows its successor when they touch
      if bp + h[bp].size == h[p].ptr {
        h := h[bp := Header(h[h[p].ptr].ptr, h[bp].size + h[h[p].ptr].size)];
      } else {
        h := h[bp := Header(h[p].ptr, h[bp].size)];
      }
      // p swallows bp when they touch
      if p + h[p].size == bp {
        h := h[p := Header(h[bp].ptr, h[p].size + h[bp].size)];
      } else {
        h := h[p := Header(bp, h[p].size)];
      }
    }

    /** free: bp is the header of a live block.  It goes back to the list, merged with its neighbours. */
    method Free(bp: nat)
      requires Valid() && bp in live
      modifies this`h, this`freep, this`list, this`live
      ensures Valid() && live == old(live) - {bp} && freep != 0
      ensures forall b :: b in live ==> b in h && b in old(h) && h[b].size == old(h)[b].size
      ensures bp in old(h) && Holds(h, list, old(h)[bp].size)
    {
      hide FreeList, LiveOk, Belongs, Gaps, Total, FreedList, Coalesced;
      var p := FindSpot(bp);
      ghost var k: nat :| k < |list| && Belongs(h, list, k, bp) && p == list[k];
      ghost var h0, list0 := h, list;
      FreeFacts(h, list, live, base, brk, got, k, bp);
      Join(p, bp);
      freep := p;
      list := FreedList(h0, list0, k, bp);
      live := live - {bp};
      FreedOk(h0, list0, old(live), base, brk, got, k, bp);
    }

    /** morecore: get at least 4096 more units from sbrk and free them. */
    method Morecore(nunits: nat) returns (r: Grant)
      requires Valid() && freep != 0 && 0 < nunits
      modifies this`h, this`freep, this`list, this`live, this`brk, this`avail, this`got
      ensures Valid() && live == old(live) && freep != 0
      ensures r.Null? <==> Refused(nunits, old(avail))
      ensures r.Overrun? <==> !Refused(nunits, old(avail)) && !FitsInt(nunits)
      ensures !r.Block? ==> h == old(h) && freep == old(freep) && list == old(list)
      ensures r.Block? ==> r.bp == freep && Holds(h, list, nunits)
      ensures r.Block? ==>
                var nu := brk - old(brk);
                nu >= 4096 && nu >= nunits && (nu == 4096 || nu == nunits)
      ensures !r.Block? ==> brk == old(brk)
      ensures forall b :: b in live ==> b in h && b in old(h) && h[b].size == old(h)[b].size
    {
      hide HeapOk, Gaps, Holds;
      LiveIn(h, list, live, base, brk, got);
      var nu := Need(nunits);
      SbrkArgExact(nu);
      if SbrkArg(nu) > avail * HDR {
        return Null;
      }
      if SbrkArg(nu) != nu * HDR {
        return Overrun;
      }
      var p := brk;
      GrantOk(h, list, live, base, brk, got, nu);
      h := h[p := Header(0, nu)];
      brk, avail := brk + nu, avail - nu;
      live, got := live + {p}, got + nu;
      Free(p);
      assert live == old(live);
      HoldsLess(h, list, nu, nunits);
      r := Block(freep);
    }

    /** The taking branch of malloc: all of p, or its tail. */
    method Take(prevp: nat, p: nat, nunits: nat, ghost k: nat) returns (bp: nat)
      requires Valid() && freep != 0 && k < |list| && prevp == list[k] && p == Next(list, k)
      requires p in h && 0 < nunits <= h[p].size
      modifies this`h, this`freep, this`list, this`live
      ensures Valid() && bp !in old(live) && live == old(live) + {bp}
      ensures bp in h && h[bp].size == nunits
      ensures forall b :: b in old(live) ==> b in h && b in old(h) && h[b].size == old(h)[b].size
    {
      hide HeapOk, Gaps;
      LiveIn(h, list, live, base, brk, got);
      BaseEmpty(h, list, live, base, brk, got, k);
      LiveNotFree(h, list, live, base, brk, got, k);
      LiveNotFree(h, list, live, base, brk, got, k + 1);
      if h[p].size == nunits {
        TakeWholeOk(h, list, live, base, brk, got, k);
        UnlinkGaps(h, list, live, base, brk, got, k);
        h := h[prevp := Header(h[p].ptr, h[prevp].size)];
        list := Without(list, k + 1);
        bp := p;
      } else {
        bp := p + (h[p].size - nunits);
        ghost var ptr := if bp in h then h[bp].ptr else 0;
        TakeTailOk(h, list, live, base, brk, got, k + 1, nunits, ptr);
        CutGaps(h, list, live, base, brk, got, k + 1, nunits, ptr);
        h := h[p := Header(h[p].ptr, h[p].size - nunits)];
        h := h[bp := Header(if bp in h then h[bp].ptr else 0, nunits)];
      }
      freep := prevp;
      live := live + {bp};
    }

    /** The first malloc makes the list of one empty block. */
    method FirstCall(ghost nunits: nat)
      requires Valid() && 0 < nunits
      modifies this`h, this`freep, this`list
      ensures Valid() && freep != 0 && Holds(h, list, nunits) == old(Holds(h, list, nunits))
      ensures old(freep) != 0 ==> h == old(h) && list == old(list) && freep == old(freep)
      ensures old(freep) == 0 ==> live == {}
    {
      if freep == 0 {
        NothingHeld(h[base := Header(base, 0)], base, nunits);
        NothingHeld(h, base, nunits);
        h := h[base := Header(base, 0)];
        freep, list := base, [base];
        InitOk(h, base, brk);
      }
    }

    /** malloc: the header of a block with room for nbytes after it.  A request fails exactly when no free
        block is long enough and sbrk refuses more, and is overrun exactly when no free block is long enough
        and the bytes asked of sbrk do not fit its int argument. */
    method Malloc(nbytes: nat) returns (r: Grant)
      requires Valid()
      modifies this`h, this`freep, this`list, this`live, this`brk, this`avail, this`got
      ensures Valid()
      ensures r.Null? <==> !Holds(old(h), old(list), UnitsFor(nbytes)) && Refused(UnitsFor(nbytes), old(avail))
      ensures r.Overrun? <==>
                && !Holds(old(h), old(list), UnitsFor(nbytes))
                && !Refused(UnitsFor(nbytes), old(avail)) && !FitsInt(UnitsFor(nbytes))
      ensures !r.Block? ==> live == old(live)
      ensures r.Block? ==>
                && r.bp !in old(live) && live == old(live) + {r.bp}
                && r.bp in h && nbytes <= (h[r.bp].size - 1) * HDR < nbytes + HDR
      ensures Holds(old(h), old(list), UnitsFor(nbytes)) || !r.Block? ==> brk == old(brk)
      ensures forall b :: b in old(live) ==> b in h && b in old(h) && h[b].size == old(h)[b].size
    {
      hide HeapOk, Gaps, Holds, Refused, FitsInt, UnitsFor;
      var nunits := UnitsFor(nbytes);
      ghost var held := Holds(h, list, nunits);
      FirstCall(nunits);
      LiveIn(h, list, live, base, brk, got);
      ghost var f :| 0 <= f < |list| && list[f] == freep;
      ghost var t, grown := 0, false;
      WalkFacts(h, list, live, base, brk, got, f, |list| - 1);
      var prevp, p := freep, h[freep].ptr;
      while true
        invariant Valid() && freep != 0 && 0 <= f < |list| && list[f] == freep && live == old(live)
        invariant 0 <= t < |list| && p == Rotate(list, f)[t] && prevp == if t == 0 then freep else Rotate(list, f)[t - 1]
        invariant forall s :: 0 <= s < t ==> Rotate(list, f)[s] in h && h[Rotate(list, f)[s]].size < nunits
        invariant !grown ==> Holds(h, list, nunits) == held && avail == old(avail)
        invariant grown ==> Holds(h, list, nunits) && !held && !Refused(nunits, old(avail)) && FitsInt(nunits)
        invariant forall b :: b in live ==> b in h && b in old(h) && h[b].size == old(h)[b].size
        decreases !grown, |list| - t
      {
        WalkFacts(h, list, live, base, brk, got, f, t);
        if h[p].size >= nunits {
          ghost var k := if t == 0 then f else Place(list, f, t - 1);
          WalkPlace(list, f, t);
          HeldAt(h, list, f, t, nunits);
          var bp := Take(prevp, p, nunits, k);
          return Block(bp);
        }
        if p == freep {
          NotHeld(h, list, live, base, brk, got, f, nunits);
          var more := Morecore(nunits);
          if !more.Block? {
            return more;
          }
          p := more.bp;
          grown, t := true, 0;
          f :| 0 <= f < |list| && list[f] == freep;
          WalkFacts(h, list, live, base, brk, got, f, |list| - 1);
        } else {
          t := t + 1;
        }
        prevp := p;
        p := h[p].ptr;
      }
    }
  }

  /** Whatever sbrk could still grant, the first request of 2^31 bytes is overrun: sbrk receives a negative
      number. */
  method OverrunAtTwoGigabytes(base: nat, brk: nat, avail: nat) returns (arena: Arena, r: Grant)
    requires 0 < base < brk
    ensures fresh(arena) && r.Overrun? && SbrkArg(UnitsFor(0x8000_0000)) < 0
  {
    arena := new Arena(base, brk, avail);
    NothingHeld(arena.h, base, UnitsFor(0x8000_0000));
    r := arena.Malloc(0x8000_0000);
  }

  lemma NothingHeld(h: Heap, base: nat, n: nat)
    requires 0 < n
    ensures !Holds(h, [], n)
    ensures base in h && h[base].size == 0 ==> !Holds(h, [base], n)
  {
  }

  lemma HeldAt(h: Heap, list: seq<nat>, f: nat, t: nat, n: nat)
    requires f < |list| && t < |list| && Rotate(list, f)[t] in h && h[Rotate(list, f)[t]].size >= n
    ensures Holds(h, list, n)
  {
    assert list[Place(list, f, t)] == Rotate(list, f)[t];
  }

  /** Some free block is at least n units long. */
  ghost predicate Holds(h: Heap, list: seq<nat>, n: nat) {
    exists i :: 0 <= i < |list| && list[i] in h && h[list[i]].size >= n
  }

  /** The four assignments of free. */
  function Coalesced(h: Heap, p: nat, b: nat): Heap
    requires p in h && b in h && p != b && h[p].ptr in h
  {
    var h1 := if b + h[b].size == h[p].ptr then h[b := Header(h[h[p].ptr].ptr, h[b].size + h[h[p].ptr].size)]
              else h[b := Header(h[p].ptr, h[b].size)];
    if p + h1[p].size == b then h1[p := Header(h1[b].ptr, h1[p].size + h1[b].size)]
    else h1[p := Header(b, h1[p].size)]
  }

  /** Merge block k of the list with its successor if they touch. */
  predicate Touch(h: Heap, list: seq<nat>, k: nat)
    requires k < |list| && list[k] in h
  {
    k + 1 < |list| && list[k] + h[list[k]].size == list[k + 1]
  }

  function MergedList(h: Heap, list: seq<nat>, k: nat): seq<nat>
    requires k < |list| && list[k] in h
  {
    if Touch(h, list, k) then Without(list, k + 1) else list
  }

  function MergedHeap(h: Heap, list: seq<nat>, k: nat): Heap
    requires k < |list| && list[k] in h && (k + 1 < |list| ==> list[k + 1] in h)
  {
    if Touch(h, list, k) then Absorb(h, list[k], list[k + 1]) else h
  }

  /** Insert, then merge upwards, then downwards. */
  ghost function FreedList(h: Heap, list: seq<nat>, k: nat, b: nat): seq<nat>
    requires k < |list| && b in h && list[k] in h && list[k] != b && forall i :: 0 <= i < |list| ==> list[i] in h
  {
    var h1, l1 := Link(h, list[k], b), Insert(list, k, b);
    var h2, l2 := MergedHeap(h1, l1, k + 1), MergedList(h1, l1, k + 1);
    MergedList(h2, l2, k)
  }

  /** The code does to the headers what inserting and merging would. */
  lemma CoalescedIs(h: Heap, list: seq<nat>, k: nat, b: nat)
    requires k < |list| && b in h && (forall i :: 0 <= i < |list| ==> list[i] in h && list[i] != b)
    requires h[list[k]].ptr == Next(list, k) && (k + 1 < |list| ==> list[k + 1] != list[k])
    requires list[0] < b
    ensures var h1, l1 := Link(h, list[k], b), Insert(list, k, b);
            var h2, l2 := MergedHeap(h1, l1, k + 1), MergedList(h1, l1, k + 1);
            Coalesced(h, list[k], b) == MergedHeap(h2, l2, k)
  {
    var l1 := Insert(list, k, b);
    InsertAt(list, k, b, k);
    InsertAt(list, k, b, k + 1);
    if k + 2 < |l1| {
      InsertAt(list, k, b, k + 2);
      WithoutAt(l1, k + 2, k);
      WithoutAt(l1, k + 2, k + 1);
    }
  }

  lemma PlaceOf(h: Heap, list: seq<nat>, live: set<nat>, base: nat, brk: nat, b: nat) returns (k: nat)
    requires FreeList(h, list, base, brk) && LiveOk(h, list, live, base, brk) && b in live
    ensures b in h && h[b].size > 0 && base < b && Belongs(h, list, k, b)
  {
    forall i | 0 <= i < |list| ensures list[i] in h && Apart(h, list[i], b) && list[i] != b {
      assert Apart(h, list[i], b);
    }
    k := FindPlace(h, list, b, 0);
  }

  lemma FreeFacts(h: Heap, list: seq<nat>, live: set<nat>, base: nat, brk: nat, got: nat, k: nat, b: nat)
    requires HeapOk(h, list, live, base, brk, got) && b in live && Belongs(h, list, k, b)
    ensures k < |list| && b in h && h[b].size > 0 && list[0] < b && base <= list[k]
    ensures forall i :: 0 <= i < |list| ==> list[i] in h && list[i] != b
    ensures h[list[k]].ptr == Next(list, k) && Next(list, k) in h && (k + 1 < |list| ==> list[k + 1] != list[k])
  {
    RingAt(h, list, k);
    forall i | 0 <= i < |list| ensures list[i] != b { BelongsApart(h, list, k, b, i); }
    if k > 0 { assert list[0] < list[k]; }
  }

  lemma MergeFacts(h: Heap, list: seq<nat>, live: set<nat>, base: nat, brk: nat, got: nat, k: nat)
    requires HeapOk(h, list, live, base, brk, got) && k < |list|
    ensures Ascending(h, list) && forall i :: 0 <= i < |list| ==> list[i] in h
    ensures forall c :: c in live ==> c in h && c != list[k]
    ensures forall i :: 0 <= i < k ==> list[i] != list[k]
  {
    hide Ring;
    forall c | c in live ensures c != list[k] { assert Apart(h, list[k], c); }
    forall i | 0 <= i < k ensures list[i] != list[k] { Distinct(h, list, i, k); }
  }

  lemma MergeOk(h: Heap, list: seq<nat>, live: set<nat>, base: nat, brk: nat, got: nat, k: nat, a: int)
    requires HeapOk(h, list, live, base, brk, got) && k < |list| && GapsBut(h, list, k, a) && a < k
    ensures forall i :: 0 <= i < |list| ==> list[i] in h
    ensures var h', list' := MergedHeap(h, list, k), MergedList(h, list, k);
            && HeapOk(h', list', live, base, brk, got) && GapsBut(h', list', a, a)
            && k < |list'| && (forall i :: 0 <= i <= k ==> list'[i] == list[i] && list[i] in h')
            && (forall i :: 0 <= i < k ==> h'[list[i]] == h[list[i]]) && h'[list[k]].size >= h[list[k]].size
            && (Touch(h, list, k) ==> h'[list[k]].size >= h[list[k + 1]].size)
            && (forall c :: c in live ==> c in h && c in h' && h'[c] == h[c])
  {
    hide FreeList, LiveOk, Total, Ascending;
    MergeFacts(h, list, live, base, brk, got, k);
    if Touch(h, list, k) {
      AbsorbOk(h, list, live, base, brk, got, k);
      AbsorbGaps(h, list, k, a);
      forall i | 0 <= i <= k ensures Without(list, k + 1)[i] == list[i] { WithoutAt(list, k + 1, i); }
    } else {
      NoTouch(h, list, k);
    }
  }

  lemma InsertStage(h: Heap, list: seq<nat>, live: set<nat>, base: nat, brk: nat, got: nat, k: nat, b: nat)
    requires HeapOk(h, list, live, base, brk, got) && Gaps(h, list) && b in live && Belongs(h, list, k, b)
    ensures k < |list| && list[k] in h && b in h && list[k] != b
    ensures var h1, l1 := Link(h, list[k], b), Insert(list, k, b);
            && HeapOk(h1, l1, live - {b}, base, brk, got) && GapsBut(h1, l1, k + 1, k)
            && k + 1 < |l1| && l1[k] == list[k] && l1[k + 1] == b
            && forall c :: c in live - {b} ==> c in h && c in h1 && h1[c].size == h[c].size
  {
    FreeFacts(h, list, live, base, brk, got, k, b);
    InsertOk(h, list, live, base, brk, got, k, b);
    InsertGaps(h, list, k, b);
    InsertAt(list, k, b, k);
    InsertAt(list, k, b, k + 1);
  }

  lemma FreedOk(h: Heap, list: seq<nat>, live: set<nat>, base: nat, brk: nat, got: nat, k: nat, b: nat)
    requires HeapOk(h, list, live, base, brk, got) && Gaps(h, list) && b in live && Belongs(h, list, k, b)
    ensures k < |list| && b in h && list[k] != b && h[list[k]].ptr in h && forall i :: 0 <= i < |list| ==> list[i] in h
    ensures var h', list' := Coalesced(h, list[k], b), FreedList(h, list, k, b);
            && HeapOk(h', list', live - {b}, base, brk, got) && Gaps(h', list')
            && list[k] in list' && Holds(h', list', h[b].size)
            && (forall c :: c in live - {b} ==> c in h' && c in h && h'[c].size == h[c].size)
  {
    hide HeapOk, Belongs, Insert, Without, Gaps, Touch, MergedHeap, MergedList, Coalesced;
    FreeFacts(h, list, live, base, brk, got, k, b);
    CoalescedIs(h, list, k, b);
    InsertStage(h, list, live, base, brk, got, k, b);
    var h1, l1, live' := Link(h, list[k], b), Insert(list, k, b), live - {b};
    MergeOk(h1, l1, live', base, brk, got, k + 1, k);
    var h2, l2 := MergedHeap(h1, l1, k + 1), MergedList(h1, l1, k + 1);
    MergeOk(h2, l2, live', base, brk, got, k, -1);
    var h3, l3 := MergedHeap(h2, l2, k), MergedList(h2, l2, k);
    GapsAll(h3, l3);
    assert l3[k] == list[k];
    FreedHolds(h2, l2, live', base, brk, got, k, h[b].size);
  }

  /** After merging downwards the freed units are still in one block. */
  lemma FreedHolds(h: Heap, list: seq<nat>, live: set<nat>, base: nat, brk: nat, got: nat, k: nat, n: nat)
    requires HeapOk(h, list, live, base, brk, got) && k + 1 < |list| && list[k + 1] in h && h[list[k + 1]].size >= n
    requires list[k] in h
    ensures Holds(MergedHeap(h, list, k), MergedList(h, list, k), n)
  {
    var h', list' := MergedHeap(h, list, k), MergedList(h, list, k);
    if Touch(h, list, k) {
      WithoutAt(list, k + 1, k);
      assert h'[list'[k]].size >= n;
    } else {
      assert h'[list'[k + 1]].size >= n;
    }
  }

  lemma GapsAll(h: Heap, list: seq<nat>)
    requires GapsBut(h, list, -1, -1)
    ensures Gaps(h, list)
  {
  }

  lemma HoldsLess(h: Heap, list: seq<nat>, n: nat, m: nat)
    requires Holds(h, list, n) && m <= n
    ensures Holds(h, list, m)
  {
  }

  lemma LiveIn(h: Heap, list: seq<nat>, live: set<nat>, base: nat, brk: nat, got: nat)
    requires live == {} || HeapOk(h, list, live, base, brk, got)
    ensures forall b :: b in live ==> b in h
  {
  }

  /** The empty free list. */
  lemma InitOk(h: Heap, base: nat, brk: nat)
    requires base in h && h[base] == Header(base, 0) && base < brk
    ensures HeapOk(h, [base], {}, base, brk, 0) && Gaps(h, [base])
  {
    UnitsOne(h, base);
    assert Next([base], 0) == base;
  }

  /** Fresh units above the heap count as one more live block. */
  lemma GrantOk(h: Heap, list: seq<nat>, live: set<nat>, base: nat, brk: nat, got: nat, nu: nat)
    requires HeapOk(h, list, live, base, brk, got) && Gaps(h, list) && base < brk && nu > 0
    ensures brk !in live && (forall i :: 0 <= i < |list| ==> list[i] != brk)
    ensures HeapOk(h[brk := Header(0, nu)], list, live + {brk}, base, brk + nu, got + nu) && Gaps(h[brk := Header(0, nu)], list)
  {
    var h' := h[brk := Header(0, nu)];
    AboveAll(h, list, live, base, brk);
    GrantList(h, list, base, brk, nu);
    GrantLive(h, list, live, base, brk, nu);
    hide FreeList, LiveOk;
    UnitsSame(h, h', list);
    LiveSame(h, h', live);
    LiveRemove(h', live + {brk}, brk);
    assert live + {brk} - {brk} == live;
    GapsSame(h, h', list);
  }

  lemma GrantList(h: Heap, list: seq<nat>, base: nat, brk: nat, nu: nat)
    requires FreeList(h, list, base, brk) && forall i :: 0 <= i < |list| ==> list[i] != brk
    ensures FreeList(h[brk := Header(0, nu)], list, base, brk + nu) && forall i :: 0 <= i < |list| ==> list[i] in h
  {
    RingSame(h, h[brk := Header(0, nu)], list);
    hide Ring;
  }

  lemma GrantLive(h: Heap, list: seq<nat>, live: set<nat>, base: nat, brk: nat, nu: nat)
    requires FreeList(h, list, base, brk) && LiveOk(h, list, live, base, brk) && base < brk && nu > 0 && brk !in live
    requires forall i :: 0 <= i < |list| ==> list[i] != brk
    ensures LiveOk(h[brk := Header(0, nu)], list, live + {brk}, base, brk + nu) && forall b :: b in live ==> b in h
  {
    hide Ring;
    var h' := h[brk := Header(0, nu)];
    forall b, c | b in live && c in live && b != c ensures Apart(h', b, c) { assert Apart(h, b, c); }
    forall i, b | 0 <= i < |list| && b in live ensures Apart(h', list[i], b) { assert Apart(h, list[i], b); }
    AddLive(h', list, live, base, brk + nu, brk);
  }

  lemma AboveAll(h: Heap, list: seq<nat>, live: set<nat>, base: nat, brk: nat)
    requires FreeList(h, list, base, brk) && LiveOk(h, list, live, base, brk) && base < brk
    ensures (forall i :: 0 <= i < |list| ==> list[i] != brk) && brk !in live
  {
    hide Ring;
  }

  lemma GapsSame(h: Heap, h': Heap, list: seq<nat>)
    requires Gaps(h, list) && forall i :: 0 <= i < |list| ==> list[i] in h && list[i] in h' && h'[list[i]] == h[list[i]]
    ensures Gaps(h', list)
  {
    forall i | 0 <= i < |list| ensures Gap(h', list, i) { assert Gap(h, list, i); }
  }

  /** A block with units is not the empty first one, so it has a predecessor in the list. */
  lemma BaseEmpty(h: Heap, list: seq<nat>, live: set<nat>, base: nat, brk: nat, got: nat, k: nat)
    requires HeapOk(h, list, live, base, brk, got) && k < |list| && Next(list, k) in h && h[Next(list, k)].size > 0
    ensures k + 1 < |list| && list[k] >= base
  {
    assert k > 0 ==> list[0] < list[k];
  }

  lemma LiveNotFree(h: Heap, list: seq<nat>, live: set<nat>, base: nat, brk: nat, got: nat, k: nat)
    requires HeapOk(h, list, live, base, brk, got) && k < |list|
    ensures list[k] in h && forall b :: b in live ==> b != list[k]
  {
    forall b | b in live ensures b != list[k] { assert Apart(h, list[k], b); }
  }

  lemma UnlinkGap(h: Heap, list: seq<nat>, k: nat, i: nat)
    requires Ascending(h, list) && k + 1 < |list| && i < |list| - 1 && Gap(h, list, if i <= k then i else i + 1)
    ensures var h', list' := Unlinked(h, list, k), Without(list, k + 1);
            list'[i] in h' && Gap(h', list', i)
  {
    WithoutAt(list, k + 1, i);
    if i + 1 < |list| - 1 { WithoutAt(list, k + 1, i + 1); }
    if i == k && k + 2 < |list| { assert list[k + 1] < list[k + 2]; }
  }

  lemma UnlinkGaps(h: Heap, list: seq<nat>, live: set<nat>, base: nat, brk: nat, got: nat, k: nat)
    requires HeapOk(h, list, live, base, brk, got) && Gaps(h, list) && k + 1 < |list|
    ensures list[k] in h && list[k + 1] in h && Gaps(Unlinked(h, list, k), Without(list, k + 1))
    ensures list[k] in Without(list, k + 1)
  {
    hide Ring, LiveOk, Gap, Total;
    var h', list' := Unlinked(h, list, k), Without(list, k + 1);
    WithoutAt(list, k + 1, k);
    assert list'[k] == list[k];
    forall i | 0 <= i < |list'| ensures list'[i] in h' && Gap(h', list', i) {
      UnlinkGap(h, list, k, i);
    }
  }

  lemma CutGap(h: Heap, list: seq<nat>, k: nat, n: nat, ptr: nat, i: nat)
    requires Ascending(h, list) && Gaps(h, list) && k < |list| && 0 < n < h[list[k]].size && i < |list|
    requires list[i] != list[k] + h[list[k]].size - n
    ensures var h' := Cut(h, list[k], n, ptr);
            list[i] in h' && Gap(h', list, i)
  {
    assert Gap(h, list, i);
    if i != k { Distinct(h, list, i, k); }
  }

  lemma CutGaps(h: Heap, list: seq<nat>, live: set<nat>, base: nat, brk: nat, got: nat, k: nat, n: nat, ptr: nat)
    requires HeapOk(h, list, live, base, brk, got) && Gaps(h, list) && k < |list| && 0 < n < h[list[k]].size
    ensures Gaps(Cut(h, list[k], n, ptr), list)
  {
    hide Ring, LiveOk, Gap, Total;
    var h' := Cut(h, list[k], n, ptr);
    TailFresh(h, list, live, base, brk, k, list[k] + h[list[k]].size - n);
    forall i | 0 <= i < |list| ensures list[i] in h' && Gap(h', list, i) {
      CutGap(h, list, k, n, ptr, i);
    }
  }

  /** Facts about the t-th block of malloc's walk. */
  lemma WalkFacts(h: Heap, list: seq<nat>, live: set<nat>, base: nat, brk: nat, got: nat, f: nat, t: nat)
    requires HeapOk(h, list, live, base, brk, got) && f < |list| && t < |list|
    ensures var r := Rotate(list, f);
            && r[t] in h && h[r[t]].ptr == (if t + 1 < |list| then r[t + 1] else r[0])
            && (r[t] == list[f] <==> t + 1 == |list|)
  {
    WalkStep(h, list, f, t);
    WalkEnds(h, list, f, t);
  }

  lemma WalkPlace(list: seq<nat>, f: nat, t: nat)
    requires f < |list| && t < |list|
    ensures var k := if t == 0 then f else Place(list, f, t - 1);
            Rotate(list, f)[t] == Next(list, k) && list[k] == if t == 0 then list[f] else Rotate(list, f)[t - 1]
  {
  }

  /** A whole walk past small blocks means there is no large one. */
  lemma NotHeld(h: Heap, list: seq<nat>, live: set<nat>, base: nat, brk: nat, got: nat, f: nat, n: nat)
    requires HeapOk(h, list, live, base, brk, got) && f < |list|
    requires forall s :: 0 <= s < |list| ==> Rotate(list, f)[s] in h && h[Rotate(list, f)[s]].size < n
    ensures !Holds(h, list, n)
  {
    forall i | 0 <= i < |list| ensures list[i] in h && h[list[i]].size < n {
      var s := if i > f then i - f - 1 else i + |list| - f - 1;
      assert Rotate(list, f)[s] == list[i];
    }
  }
}
