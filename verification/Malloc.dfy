/** malloc, free and morecore of umalloc.c. */
module Malloc {
  import opened Basics
  import opened HeapRing

  const HDR: nat := 16  // sizeof(Header)

  /** The free list starts at the empty block `base`, which lies below the whole heap. */
  ghost predicate FreeList(h: Heap, list: seq<nat>, base: nat, brk: nat) {
    && Ring(h, list) && Ascending(h, list)
    && list[0] == base && h[base].size == 0
    && (forall i :: 0 < i < |list| ==> h[list[i]].size > 0)
    && (forall i :: 0 <= i < |list| ==> list[i] + h[list[i]].size <= brk)
  }

  /** No two free blocks touch. */
  ghost predicate Gaps(h: Heap, list: seq<nat>) {
    forall i :: 0 <= i < |list| ==> list[i] in h && Gap(h, list, i)
  }

  /** Live blocks are in the heap, disjoint from each other and from the free blocks. */
  ghost predicate LiveOk(h: Heap, list: seq<nat>, live: set<nat>, base: nat, brk: nat) {
    && (forall b :: b in live ==> b in h && base < b && h[b].size > 0 && b + h[b].size <= brk)
    && (forall b, c :: b in live && c in live && b != c ==> Apart(h, b, c))
    && (forall i, b :: 0 <= i < |list| && b in live ==> list[i] in h && Apart(h, list[i], b))
  }

  ghost function LiveUnits(h: Heap, live: set<nat>): nat {
    if live == {} then 0
    else
      var b :| b in live;
      (if b in h then h[b].size else 0) + LiveUnits(h, live - {b})
  }

  lemma {:induction false} LiveRemove(h: Heap, live: set<nat>, b: nat)
    requires b in live && live <= h.Keys
    ensures LiveUnits(h, live) == h[b].size + LiveUnits(h, live - {b})
    decreases |live|
  {
    var x :| x in live && LiveUnits(h, live) == h[x].size + LiveUnits(h, live - {x});
    if x != b {
      LiveRemove(h, live - {x}, b);
      LiveRemove(h, live - {b}, x);
      assert live - {x} - {b} == live - {b} - {x};
    }
  }

  lemma {:induction false} LiveSame(h: Heap, h': Heap, live: set<nat>)
    requires forall b :: b in live ==> b in h && b in h' && h'[b].size == h[b].size
    ensures LiveUnits(h', live) == LiveUnits(h, live)
    decreases |live|
  {
    if live != {} {
      var b :| b in live;
      LiveRemove(h, live, b);
      LiveRemove(h', live, b);
      LiveSame(h, h', live - {b});
    }
  }

  /** Free and live units together. */
  ghost function Total(h: Heap, list: seq<nat>, live: set<nat>): nat {
    Units(h, list) + LiveUnits(h, live)
  }

  ghost predicate HeapOk(h: Heap, list: seq<nat>, live: set<nat>, base: nat, brk: nat, got: nat) {
    FreeList(h, list, base, brk) && LiveOk(h, list, live, base, brk) && Total(h, list, live) == got
  }

  // ---------------------------------------------------------------- how each change keeps the heap

  /** A live block joins the free list. */
  lemma InsertOk(h: Heap, list: seq<nat>, live: set<nat>, base: nat, brk: nat, got: nat, k: nat, b: nat)
    requires HeapOk(h, list, live, base, brk, got) && b in live && Belongs(h, list, k, b)
    ensures list[k] != b && HeapOk(Link(h, list[k], b), Insert(list, k, b), live - {b}, base, brk, got)
  {
    InsertRing(h, list, k, b);
    var h', list', live' := Link(h, list[k], b), Insert(list, k, b), live - {b};
    assert forall x :: x in h ==> x in h' && h'[x].size == h[x].size;
    InsertMembers(h, h', list, live, base, brk, k, b);
    InsertUnits(h, list, live, k, b);
  }

  lemma InsertMembers(h: Heap, h': Heap, list: seq<nat>, live: set<nat>, base: nat, brk: nat, k: nat, b: nat)
    requires FreeList(h, list, base, brk) && LiveOk(h, list, live, base, brk) && b in live && Belongs(h, list, k, b)
    requires forall x :: x in h ==> x in h' && h'[x].size == h[x].size
    ensures var list' := Insert(list, k, b);
            && list'[0] == base && h'[base].size == 0
            && (forall i :: 0 <= i < |list'| ==> list'[i] in h')
            && (forall i :: 0 < i < |list'| ==> h'[list'[i]].size > 0)
            && (forall i :: 0 <= i < |list'| ==> list'[i] + h'[list'[i]].size <= brk)
            && LiveOk(h', list', live - {b}, base, brk)
  {
    var list' := Insert(list, k, b);
    InsertAt(list, k, b, 0);
    forall i | 0 <= i < |list'| ensures list'[i] in h && (i > 0 ==> h[list'[i]].size > 0) && list'[i] + h[list'[i]].size <= brk
    {
      InsertAt(list, k, b, i);
    }
    forall i, c | 0 <= i < |list'| && c in live - {b} ensures Apart(h', list'[i], c) {
      InsertAt(list, k, b, i);
      if i == k + 1 { assert Apart(h, b, c); } else { assert Apart(h, list[if i <= k then i else i - 1], c); }
    }
    forall c, d | c in live - {b} && d in live - {b} && c != d ensures Apart(h', c, d) {
      assert Apart(h, c, d);
    }
  }

  lemma InsertUnits(h: Heap, list: seq<nat>, live: set<nat>, k: nat, b: nat)
    requires k < |list| && (forall i :: 0 <= i < |list| ==> list[i] in h) && b in h && list[k] != b
    requires b in live && forall c :: c in live ==> c in h
    ensures Total(Link(h, list[k], b), Insert(list, k, b), live - {b}) == Total(h, list, live)
  {
    var h' := Link(h, list[k], b);
    UnitsInsert(h, list, k, b);
    assert forall i :: 0 <= i < |Insert(list, k, b)| ==> Insert(list, k, b)[i] in h;
    UnitsSame(h, h', Insert(list, k, b));
    LiveRemove(h, live, b);
    LiveSame(h, h', live - {b});
  }

  /** Two touching free blocks become one. */
  lemma AbsorbOk(h: Heap, list: seq<nat>, live: set<nat>, base: nat, brk: nat, got: nat, k: nat)
    requires HeapOk(h, list, live, base, brk, got) && 0 < k + 1 < |list| && list[k] + h[list[k]].size == list[k + 1]
    ensures list[k] in h && list[k + 1] in h && k > 0
    ensures HeapOk(Absorb(h, list[k], list[k + 1]), Without(list, k + 1), live, base, brk, got)
  {
    assert list[0] < list[1];
    AbsorbRing(h, list, k);
    AbsorbMembers(h, list, live, base, brk, k);
    AbsorbUnits(h, list, live, base, brk, k);
  }

  lemma AbsorbMembers(h: Heap, list: seq<nat>, live: set<nat>, base: nat, brk: nat, k: nat)
    requires FreeList(h, list, base, brk) && LiveOk(h, list, live, base, brk)
    requires 0 < k < |list| - 1 && list[k] + h[list[k]].size == list[k + 1]
    ensures var h', list' := Absorb(h, list[k], list[k + 1]), Without(list, k + 1);
            && list'[0] == base && h'[base].size == 0
            && (forall i :: 0 <= i < |list'| ==> list'[i] in h')
            && (forall i :: 0 < i < |list'| ==> h'[list'[i]].size > 0)
            && (forall i :: 0 <= i < |list'| ==> list'[i] + h'[list'[i]].size <= brk)
            && LiveOk(h', list', live, base, brk)
  {
    hide Ring;
    var h', list' := Absorb(h, list[k], list[k + 1]), Without(list, k + 1);
    Distinct(h, list, 0, k);
    WithoutAt(list, k + 1, 0);
    forall i | 0 <= i < |list'|
      ensures list'[i] in h' && (i > 0 ==> h'[list'[i]].size > 0) && list'[i] + h'[list'[i]].size <= brk
      ensures forall b :: b in live ==> Apart(h', list'[i], b)
    {
      AbsorbMember(h, list, live, base, brk, k, i);
    }
    forall b, c | b in live && c in live && b != c ensures Apart(h', b, c) {
      assert Apart(h, b, c) && Apart(h, list[k], b) && Apart(h, list[k], c);
    }
    forall b | b in live ensures b in h' && h'[b].size == h[b].size {
      assert Apart(h, list[k], b);
    }
  }

  lemma AbsorbMember(h: Heap, list: seq<nat>, live: set<nat>, base: nat, brk: nat, k: nat, i: nat)
    requires FreeList(h, list, base, brk) && LiveOk(h, list, live, base, brk)
    requires 0 < k < |list| - 1 && list[k] + h[list[k]].size == list[k + 1] && i < |list| - 1
    ensures var h', list' := Absorb(h, list[k], list[k + 1]), Without(list, k + 1);
            && list'[i] in h' && (i > 0 ==> h'[list'[i]].size > 0) && list'[i] + h'[list'[i]].size <= brk
            && forall b :: b in live ==> b in h' && Apart(h', list'[i], b)
  {
    hide Ring;
    var h', list' := Absorb(h, list[k], list[k + 1]), Without(list, k + 1);
    WithoutAt(list, k + 1, i);
    var j := if i <= k then i else i + 1;
    if j != k { Distinct(h, list, j, k); }
    forall b | b in live ensures Apart(h', list'[i], b) {
      assert Apart(h, list[j], b) && Apart(h, list[k], b) && Apart(h, list[k + 1], b);
    }
  }

  lemma AbsorbUnits(h: Heap, list: seq<nat>, live: set<nat>, base: nat, brk: nat, k: nat)
    requires FreeList(h, list, base, brk) && LiveOk(h, list, live, base, brk)
    requires 0 < k < |list| - 1
    ensures Total(Absorb(h, list[k], list[k + 1]), Without(list, k + 1), live) == Total(h, list, live)
  {
    hide Ring;
    var h', list' := Absorb(h, list[k], list[k + 1]), Without(list, k + 1);
    UnitsWithout(h, list, k + 1);
    WithoutAt(list, k + 1, k);
    forall j | 0 <= j < |list'| && j != k ensures list'[j] != list'[k] {
      WithoutAt(list, k + 1, j);
      Distinct(h, list, if j < k then j else j + 1, k);
    }
    UnitsResize(h, list', k, h'[list[k]]);
    forall b | b in live ensures b != list[k] { assert Apart(h, list[k], b); }
    LiveSame(h, h', live);
  }

  /** The heap after malloc takes the whole block after list[k]. */
  function Unlinked(h: Heap, list: seq<nat>, k: nat): Heap
    requires k + 1 < |list| && list[k] in h && list[k + 1] in h
  {
    h[list[k] := Header(h[list[k + 1]].ptr, h[list[k]].size)]
  }

  /** One more live block, apart from all the others. */
  lemma AddLive(h: Heap, list: seq<nat>, live: set<nat>, base: nat, brk: nat, q: nat)
    requires LiveOk(h, list, live, base, brk)
    requires q in h && base < q && h[q].size > 0 && q + h[q].size <= brk
    requires forall b :: b in live ==> Apart(h, b, q)
    requires forall i :: 0 <= i < |list| ==> list[i] in h && Apart(h, list[i], q)
    ensures LiveOk(h, list, live + {q}, base, brk)
  {
  }

  lemma TakeWholeMember(h: Heap, list: seq<nat>, live: set<nat>, base: nat, brk: nat, k: nat, i: nat)
    requires FreeList(h, list, base, brk) && LiveOk(h, list, live, base, brk) && k + 1 < |list| && i < |list| - 1
    ensures list[k + 1] in h
    ensures var b := Without(list, k + 1)[i];
            && b in h && (i > 0 ==> h[b].size > 0) && b + h[b].size <= brk && Apart(h, b, list[k + 1])
            && forall c :: c in live ==> c in h && Apart(h, b, c)
  {
    hide Ring;
    WithoutAt(list, k + 1, i);
    var j := if i <= k then i else i + 1;
    assert j < k + 1 ==> list[j] + h[list[j]].size <= list[k + 1];
    assert j > k + 1 ==> list[k + 1] + h[list[k + 1]].size <= list[j];
  }

  lemma TakeWholeLive(h: Heap, h': Heap, list: seq<nat>, live: set<nat>, base: nat, brk: nat, k: nat)
    requires FreeList(h, list, base, brk) && LiveOk(h, list, live, base, brk) && k + 1 < |list|
    requires forall x :: x in h ==> x in h' && h'[x].size == h[x].size
    ensures list[k + 1] !in live && LiveOk(h', Without(list, k + 1), live + {list[k + 1]}, base, brk)
  {
    hide Ring;
    var p, list' := list[k + 1], Without(list, k + 1);
    assert list[0] < p;
    forall b | b in live ensures b != p && Apart(h, p, b) { assert Apart(h, list[k + 1], b); }
    forall i | 0 <= i < |list'|
      ensures list'[i] in h' && Apart(h', list'[i], p) && forall c :: c in live ==> c in h' && Apart(h', list'[i], c)
    {
      TakeWholeMember(h, list, live, base, brk, k, i);
    }
    forall b, c | b in live && c in live && b != c ensures Apart(h', b, c) {
      assert Apart(h, b, c);
    }
    AddLive(h', list', live, base, brk, p);
  }

  lemma TakeWholeUnits(h: Heap, h': Heap, list: seq<nat>, live: set<nat>, p: nat, k: nat)
    requires k + 1 < |list| && p == list[k + 1] && p !in live && live <= h.Keys
    requires forall i :: 0 <= i < |list| ==> list[i] in h
    requires forall x :: x in h ==> x in h' && h'[x].size == h[x].size
    ensures Total(h', Without(list, k + 1), live + {p}) == Total(h, list, live)
  {
    UnitsWithout(h, list, k + 1);
    var list' := Without(list, k + 1);
    forall i | 0 <= i < |list'| ensures list'[i] in h { WithoutAt(list, k + 1, i); }
    UnitsSame(h, h', list');
    LiveSame(h, h', live + {p});
    LiveRemove(h, live + {p}, p);
    assert live + {p} - {p} == live;
  }

  lemma TakeWholeOk(h: Heap, list: seq<nat>, live: set<nat>, base: nat, brk: nat, got: nat, k: nat)
    requires HeapOk(h, list, live, base, brk, got) && k + 1 < |list|
    ensures list[k] in h && list[k + 1] in h && list[k + 1] !in live
    ensures HeapOk(Unlinked(h, list, k), Without(list, k + 1), live + {list[k + 1]}, base, brk, got)
  {
    var h', list' := Unlinked(h, list, k), Without(list, k + 1);
    Unlink(h, list, k, h[list[k]].size) by { assert k + 2 < |list| ==> list[k] + h[list[k]].size <= list[k + 2]; }
    hide Ring;
    assert forall x :: x in h ==> x in h' && h'[x].size == h[x].size;
    WithoutAt(list, k + 1, 0);
    forall i | 0 <= i < |list'| ensures list'[i] in h && (i > 0 ==> h[list'[i]].size > 0) && list'[i] + h[list'[i]].size <= brk {
      TakeWholeMember(h, list, live, base, brk, k, i);
    }
    TakeWholeLive(h, h', list, live, base, brk, k);
    TakeWholeUnits(h, h', list, live, list[k + 1], k);
  }

  /** The heap after malloc takes the last n units of block p. */
  function Cut(h: Heap, p: nat, n: nat, ptr: nat): Heap
    requires p in h && n <= h[p].size
  {
    h[p := Header(h[p].ptr, h[p].size - n)][p + h[p].size - n := Header(ptr, n)]
  }

  lemma TakeTailOk(h: Heap, list: seq<nat>, live: set<nat>, base: nat, brk: nat, got: nat, k: nat, n: nat, ptr: nat)
    requires HeapOk(h, list, live, base, brk, got) && k < |list| && 0 < n < h[list[k]].size
    ensures var q := list[k] + h[list[k]].size - n;
            && q !in live && (forall i :: 0 <= i < |list| ==> list[i] != q)
            && HeapOk(Cut(h, list[k], n, ptr), list, live + {q}, base, brk, got)
  {
    var p := list[k];
    var q, h' := p + h[p].size - n, Cut(h, p, n, ptr);
    TailFresh(h, list, live, base, brk, k, q);
    TailFree(h, list, live, base, brk, k, n, ptr);
    TailLive(h, list, live, base, brk, k, n, ptr);
    TailUnits(h, list, live, base, brk, k, n, ptr);
  }

  lemma TailRing(h: Heap, list: seq<nat>, live: set<nat>, base: nat, brk: nat, k: nat, n: nat, ptr: nat)
    requires FreeList(h, list, base, brk) && LiveOk(h, list, live, base, brk) && k < |list| && 0 < n < h[list[k]].size
    ensures Ring(Cut(h, list[k], n, ptr), list) && Ascending(Cut(h, list[k], n, ptr), list)
  {
    var p := list[k];
    TailFresh(h, list, live, base, brk, k, p + h[p].size - n);
    ShrinkRing(h, list, k, h[p].size - n);
    RingSame(h[p := Header(h[p].ptr, h[p].size - n)], Cut(h, p, n, ptr), list);
  }

  lemma TailFree(h: Heap, list: seq<nat>, live: set<nat>, base: nat, brk: nat, k: nat, n: nat, ptr: nat)
    requires FreeList(h, list, base, brk) && LiveOk(h, list, live, base, brk) && k < |list| && 0 < n < h[list[k]].size
    ensures k > 0 && FreeList(Cut(h, list[k], n, ptr), list, base, brk)
  {
    hide Ring;
    var p := list[k];
    var h' := Cut(h, p, n, ptr);
    TailRing(h, list, live, base, brk, k, n, ptr);
    TailFresh(h, list, live, base, brk, k, p + h[p].size - n);
    Distinct(h, list, 0, k);
    forall i | 0 <= i < |list| ensures list[i] in h' && h'[list[i]].size == if i == k then h[p].size - n else h[list[i]].size {
      if i != k { Distinct(h, list, i, k); }
    }
  }

  lemma TailUnits(h: Heap, list: seq<nat>, live: set<nat>, base: nat, brk: nat, k: nat, n: nat, ptr: nat)
    requires FreeList(h, list, base, brk) && LiveOk(h, list, live, base, brk) && k < |list| && 0 < n < h[list[k]].size
    ensures Total(Cut(h, list[k], n, ptr), list, live + {list[k] + h[list[k]].size - n}) == Total(h, list, live)
  {
    hide Ring;
    var p := list[k];
    var q, h1, h' := p + h[p].size - n, h[p := Header(h[p].ptr, h[p].size - n)], Cut(h, p, n, ptr);
    TailFresh(h, list, live, base, brk, k, q);
    forall i | 0 <= i < |list| && i != k ensures list[i] != p { Distinct(h, list, i, k); }
    UnitsResize(h, list, k, Header(h[p].ptr, h[p].size - n));
    UnitsSame(h1, h', list);
    assert (live + {q}) - {q} == live;
    LiveRemove(h', live + {q}, q);
    LiveSame(h, h', live);
  }

  lemma RingSame(h: Heap, h': Heap, list: seq<nat>)
    requires Ring(h, list) && Ascending(h, list) && forall i :: 0 <= i < |list| ==> list[i] in h' && h'[list[i]] == h[list[i]]
    ensures Ring(h', list) && Ascending(h', list)
  {
  }

  /** An address inside a free block starts no other block. */
  lemma TailFresh(h: Heap, list: seq<nat>, live: set<nat>, base: nat, brk: nat, k: nat, q: nat)
    requires FreeList(h, list, base, brk) && LiveOk(h, list, live, base, brk) && k < |list|
    requires list[k] < q < list[k] + h[list[k]].size
    ensures q !in live && (forall i :: 0 <= i < |list| ==> list[i] != q) && list[k] !in live
  {
    hide Ring;
    forall b | b in live ensures b != q && b != list[k] { assert Apart(h, list[k], b); }
    forall i | 0 <= i < |list| ensures list[i] != q {
      assert i < k ==> list[i] < list[k];
      assert i > k ==> list[k] + h[list[k]].size <= list[i];
    }
  }

  lemma TailApart(h: Heap, list: seq<nat>, live: set<nat>, base: nat, brk: nat, k: nat, n: nat, ptr: nat, i: nat,
                  b: nat)
    requires FreeList(h, list, base, brk) && LiveOk(h, list, live, base, brk) && k < |list| && 0 < n < h[list[k]].size
    requires i < |list| && b in live + {list[k] + h[list[k]].size - n}
    ensures var h' := Cut(h, list[k], n, ptr);
            list[i] in h' && b in h' && Apart(h', list[i], b)
  {
    hide Ring;
    var p := list[k];
    TailFresh(h, list, live, base, brk, k, p + h[p].size - n);
    assert b in live ==> Apart(h, list[i], b);
    if i != k {
      Distinct(h, list, i, k);
      assert i < k ==> list[i] + h[list[i]].size <= list[k];
      assert i > k ==> list[k] + h[list[k]].size <= list[i];
    }
  }

  lemma TailLive(h: Heap, list: seq<nat>, live: set<nat>, base: nat, brk: nat, k: nat, n: nat, ptr: nat)
    requires FreeList(h, list, base, brk) && LiveOk(h, list, live, base, brk) && k < |list| && 0 < n < h[list[k]].size
    ensures LiveOk(Cut(h, list[k], n, ptr), list, live + {list[k] + h[list[k]].size - n}, base, brk)
  {
    hide Ring;
    var p := list[k];
    var q, h' := p + h[p].size - n, Cut(h, p, n, ptr);
    TailFresh(h, list, live, base, brk, k, q);
    assert k > 0 ==> list[0] < p;
    forall b, c | b in live && c in live && b != c ensures b in h' && c in h' && Apart(h', b, c) {
      assert Apart(h, b, c) && Apart(h, list[k], b) && Apart(h, list[k], c);
    }
    forall b | b in live ensures b in h' && h'[b] == h[b] && Apart(h', b, q) {
      assert Apart(h, list[k], b);
    }
    forall i | 0 <= i < |list| ensures list[i] in h' && Apart(h', list[i], q) {
      TailApart(h, list, live, base, brk, k, n, ptr, i, q);
    }
    forall i, b | 0 <= i < |list| && b in live ensures Apart(h', list[i], b) {
      TailApart(h, list, live, base, brk, k, n, ptr, i, b);
    }
    AddLive(h', list, live, base, brk, q);
  }

  // ---------------------------------------------------------------- gaps

  /** Only the blocks a and b may touch their successors. */
  ghost predicate GapsBut(h: Heap, list: seq<nat>, a: int, b: int) {
    forall i :: 0 <= i < |list| && i != a && i != b ==> list[i] in h && Gap(h, list, i)
  }

  lemma InsertGaps(h: Heap, list: seq<nat>, k: nat, b: nat)
    requires Gaps(h, list) && k < |list| && b in h && list[k] != b
    requires forall i :: 0 <= i < |list| ==> list[i] in h
    ensures GapsBut(Link(h, list[k], b), Insert(list, k, b), k, k + 1)
  {
    var list' := Insert(list, k, b);
    forall i | 0 <= i < |list'| && i != k && i != k + 1 ensures list'[i] in h && Gap(Link(h, list[k], b), list', i) {
      InsertAt(list, k, b, i);
      if i < |list| { InsertAt(list, k, b, i + 1); }
      assert Gap(h, list, if i < k then i else i - 1);
    }
  }

  /** Absorbing the successor of block k leaves block k with that successor's gap. */
  lemma AbsorbGaps(h: Heap, list: seq<nat>, k: nat, a: int)
    requires Ascending(h, list) && k + 1 < |list| && list[k] + h[list[k]].size == list[k + 1]
    requires GapsBut(h, list, k, a) && a < k
    ensures GapsBut(Absorb(h, list[k], list[k + 1]), Without(list, k + 1), a, a)
  {
    var h', list' := Absorb(h, list[k], list[k + 1]), Without(list, k + 1);
    forall i | 0 <= i < |list'| && i != a ensures list'[i] in h' && Gap(h', list', i) {
      WithoutAt(list, k + 1, i);
      if i + 1 < |list'| { WithoutAt(list, k + 1, i + 1); }
      var j := if i < k then i else i + 1;
      assert Gap(h, list, j);
      if i != k { Distinct(h, list, if i < k then i else i + 1, k); }
    }
  }

  lemma NoTouch(h: Heap, list: seq<nat>, i: nat)
    requires Ascending(h, list) && i < |list| && (i + 1 < |list| ==> list[i] + h[list[i]].size != list[i + 1])
    ensures Gap(h, list, i)
  {
  }
}
