/** The free list of umalloc.c as a value: headers linked in one ring that ascends by address and
    wraps once.  Addresses and sizes count header units. */
module HeapRing {
  import opened Basics

  datatype Header = Header(ptr: nat, size: nat)
  type Heap = map<nat, Header>

  /** Block b ends before block c starts, or the other way round. */
  predicate Apart(h: Heap, b: nat, c: nat)
    requires b in h && c in h
  {
    b + h[b].size <= c || c + h[c].size <= b
  }

  /** Following ptr from list[0] visits list and comes back. */
  ghost predicate Ring(h: Heap, list: seq<nat>) {
    && list != []
    && (forall i :: 0 <= i < |list| ==> list[i] in h)
    && (forall i {:trigger Next(list, i)} :: 0 <= i < |list| ==> h[list[i]].ptr == Next(list, i))
  }

  function Next(list: seq<nat>, i: nat): nat
    requires i < |list|
  {
    if i + 1 < |list| then list[i + 1] else list[0]
  }

  /** Blocks ascend without overlap. */
  ghost predicate Ascending(h: Heap, list: seq<nat>) {
    && (forall i :: 0 <= i < |list| ==> list[i] in h)
    && (forall i, j :: 0 <= i < j < |list| ==> list[i] < list[j] && list[i] + h[list[i]].size <= list[j])
  }

  /** Block i does not reach its successor. */
  predicate Gap(h: Heap, list: seq<nat>, i: nat)
    requires i < |list| && list[i] in h
  {
    i + 1 < |list| ==> list[i] + h[list[i]].size < list[i + 1]
  }

  function Units(h: Heap, list: seq<nat>): nat {
    if list == [] then 0
    else Units(h, list[..|list| - 1]) + (if list[|list| - 1] in h then h[list[|list| - 1]].size else 0)
  }

  // ---------------------------------------------------------------- inserting a block

  function Insert(list: seq<nat>, k: nat, b: nat): seq<nat>
    requires k < |list|
  {
    list[..k + 1] + [b] + list[k + 1..]
  }

  /** bp->s.ptr = p->s.ptr; p->s.ptr = bp. */
  function Link(h: Heap, p: nat, b: nat): Heap
    requires p in h && b in h && p != b
  {
    h[b := Header(h[p].ptr, h[b].size)][p := Header(b, h[p].size)]
  }

  /** k is where b belongs: after list[k], before its successor or after the last block. */
  ghost predicate Belongs(h: Heap, list: seq<nat>, k: nat, b: nat) {
    && b in h && k < |list| && (forall i :: 0 <= i < |list| ==> list[i] in h && Apart(h, list[i], b))
    && list[k] < b && (k + 1 < |list| ==> b < list[k + 1])
  }

  /** Where the i-th entry of an insertion comes from. */
  lemma InsertAt(list: seq<nat>, k: nat, b: nat, i: nat)
    requires k < |list| && i <= |list|
    ensures Insert(list, k, b)[i] == if i <= k then list[i] else if i == k + 1 then b else list[i - 1]
  {
  }

  lemma InsertAscending(h: Heap, h': Heap, list: seq<nat>, k: nat, b: nat)
    requires Ascending(h, list) && Belongs(h, list, k, b) && h[b].size > 0
    requires forall x :: x in h ==> x in h' && h'[x].size == h[x].size
    ensures Ascending(h', Insert(list, k, b))
  {
    hide Ring;
    var list' := Insert(list, k, b);
    forall i | 0 <= i < |list'| ensures list'[i] in h' {
      InsertAt(list, k, b, i);
    }
    forall i, j | 0 <= i < j < |list'| ensures list'[i] < list'[j] && list'[i] + h'[list'[i]].size <= list'[j] {
      InsertAt(list, k, b, i);
      InsertAt(list, k, b, j);
      assert i <= k ==> Apart(h, list[i], b);
      assert j > k + 1 ==> Apart(h, list[j - 1], b);
      assert i < k ==> list[i] < list[k];
      assert j > k + 2 ==> list[k + 1] < list[j - 1];
    }
  }

  lemma InsertRing(h: Heap, list: seq<nat>, k: nat, b: nat)
    requires Ring(h, list) && Ascending(h, list) && Belongs(h, list, k, b) && h[b].size > 0
    ensures list[k] != b
    ensures Ring(Link(h, list[k], b), Insert(list, k, b)) && Ascending(Link(h, list[k], b), Insert(list, k, b))
  {
    var h', list' := Link(h, list[k], b), Insert(list, k, b);
    InsertAscending(h, h', list, k, b);
    InsertAt(list, k, b, 0);
    forall i | 0 <= i < |list'| ensures list'[i] in h' && h'[list'[i]].ptr == Next(list', i) {
      InsertPtr(h, list, k, b, i);
    }
  }

  lemma InsertPtr(h: Heap, list: seq<nat>, k: nat, b: nat, i: nat)
    requires Ring(h, list) && Ascending(h, list) && Belongs(h, list, k, b) && h[b].size > 0 && i <= |list| && list[k] != b
    ensures var h', list' := Link(h, list[k], b), Insert(list, k, b);
            list'[i] in h' && h'[list'[i]].ptr == Next(list', i)
  {
    hide Ring, Ascending;
    InsertAt(list, k, b, 0);
    InsertAt(list, k, b, i);
    if i < |list| { InsertAt(list, k, b, i + 1); }
    RingAt(h, list, k);
    if i != k + 1 && i != k {
      var j := if i <= k then i else i - 1;
      RingAt(h, list, j);
      Distinct(h, list, j, k);
      if list[j] == b {
        BelongsApart(h, list, k, b, j);
      }
    }
  }

  lemma BelongsApart(h: Heap, list: seq<nat>, k: nat, b: nat, j: nat)
    requires Ascending(h, list) && Belongs(h, list, k, b) && j < |list|
    ensures list[j] != b
  {
    assert j < k ==> list[j] < list[k];
    assert j > k + 1 ==> list[k + 1] < list[j];
  }

  // ---------------------------------------------------------------- absorbing the successor

  /** The two assignments that merge q into the block p right below it. */
  function Absorb(h: Heap, p: nat, q: nat): Heap
    requires p in h && q in h
  {
    h[p := Header(h[q].ptr, h[p].size + h[q].size)]
  }

  lemma WithoutAt(list: seq<nat>, k: nat, i: nat)
    requires k < |list| && i < |list| - 1
    ensures Without(list, k)[i] == if i < k then list[i] else list[i + 1]
  {
  }

  lemma Distinct(h: Heap, list: seq<nat>, i: nat, j: nat)
    requires Ascending(h, list) && i < |list| && j < |list| && i != j
    ensures list[i] != list[j]
  {
    assert i < j ==> list[i] < list[j];
    assert j < i ==> list[j] < list[i];
  }

  lemma RingAt(h: Heap, list: seq<nat>, i: nat)
    requires Ring(h, list) && i < |list|
    ensures list[i] in h && h[list[i]].ptr == Next(list, i)
  {
  }

  lemma UnlinkAt(h: Heap, list: seq<nat>, k: nat, size: nat, i: nat)
    requires Ring(h, list) && Ascending(h, list) && k + 1 < |list| && i < |list| - 1
    ensures list[k] in h && list[k + 1] in h
    ensures var h', list' := h[list[k] := Header(h[list[k + 1]].ptr, size)], Without(list, k + 1);
            list'[i] in h' && h'[list'[i]].ptr == Next(list', i)
  {
    hide Ring, Ascending;
    RingAt(h, list, k);
    RingAt(h, list, k + 1);
    var list' := Without(list, k + 1);
    WithoutAt(list, k + 1, 0);
    WithoutAt(list, k + 1, i);
    if i + 1 < |list'| { WithoutAt(list, k + 1, i + 1); }
    if i != k {
      var j := if i < k then i else i + 1;
      RingAt(h, list, j);
      Distinct(h, list, j, k);
    }
  }

  /** list[k] takes over its successor's link, and may grow up to the block after that. */
  lemma Unlink(h: Heap, list: seq<nat>, k: nat, size: nat)
    requires Ring(h, list) && Ascending(h, list) && k + 1 < |list|
    requires k + 2 < |list| ==> list[k] + size <= list[k + 2]
    ensures list[k] in h && list[k + 1] in h
    ensures var h' := h[list[k] := Header(h[list[k + 1]].ptr, size)];
            Ring(h', Without(list, k + 1)) && Ascending(h', Without(list, k + 1))
  {
    hide Next, Without;
    WithoutLength(list, k + 1);
    var h', list' := h[list[k] := Header(h[list[k + 1]].ptr, size)], Without(list, k + 1);
    forall i | 0 <= i < |list| - 1 ensures list'[i] in h' && h'[list'[i]].ptr == Next(list', i) {
      UnlinkAt(h, list, k, size, i);
    }
    UnlinkAscending(h, list, k, size);
  }

  lemma WithoutLength(list: seq<nat>, k: nat)
    requires k < |list|
    ensures |Without(list, k)| == |list| - 1
  {
  }

  lemma UnlinkAscending(h: Heap, list: seq<nat>, k: nat, size: nat)
    requires Ascending(h, list) && k + 1 < |list|
    requires k + 2 < |list| ==> list[k] + size <= list[k + 2]
    ensures Ascending(h[list[k] := Header(h[list[k + 1]].ptr, size)], Without(list, k + 1))
  {
    var h', list' := h[list[k] := Header(h[list[k + 1]].ptr, size)], Without(list, k + 1);
    forall i | 0 <= i < |list'| ensures list'[i] in h' {
      WithoutAt(list, k + 1, i);
    }
    forall i, j | 0 <= i < j < |list'| ensures list'[i] < list'[j] && list'[i] + h'[list'[i]].size <= list'[j] {
      WithoutAt(list, k + 1, i);
      WithoutAt(list, k + 1, j);
      if i == k && j > k + 1 {
        assert list[k + 2] < list[j + 1];
      }
    }
  }

  /** Merging the successor keeps the ring. */
  lemma AbsorbRing(h: Heap, list: seq<nat>, k: nat)
    requires Ring(h, list) && Ascending(h, list) && k + 1 < |list| && list[k] + h[list[k]].size == list[k + 1]
    ensures Ring(Absorb(h, list[k], list[k + 1]), Without(list, k + 1))
    ensures Ascending(Absorb(h, list[k], list[k + 1]), Without(list, k + 1))
  {
    assert k + 2 < |list| ==> list[k + 1] + h[list[k + 1]].size <= list[k + 2];
    Unlink(h, list, k, h[list[k]].size + h[list[k + 1]].size);
  }

  /** A block that gives up its tail keeps its place. */
  lemma ShrinkRing(h: Heap, list: seq<nat>, k: nat, size: nat)
    requires Ring(h, list) && Ascending(h, list) && k < |list| && size <= h[list[k]].size
    ensures var h' := h[list[k] := Header(h[list[k]].ptr, size)];
            Ring(h', list) && Ascending(h', list)
  {
  }

  // ---------------------------------------------------------------- units

  lemma {:induction false} UnitsSame(h: Heap, h': Heap, list: seq<nat>)
    requires forall i :: 0 <= i < |list| ==> (list[i] in h <==> list[i] in h') && (list[i] in h ==> h'[list[i]].size == h[list[i]].size)
    ensures Units(h', list) == Units(h, list)
  {
    if list != [] {
      UnitsSame(h, h', list[..|list| - 1]);
    }
  }

  lemma {:induction false} UnitsConcat(h: Heap, a: seq<nat>, b: seq<nat>)
    ensures Units(h, a + b) == Units(h, a) + Units(h, b)
  {
    if b == [] {
      assert a + b == a;
    } else {
      UnitsConcat(h, a, b[..|b| - 1]);
      assert (a + b)[..|a + b| - 1] == a + b[..|b| - 1];
    }
  }

  lemma UnitsOne(h: Heap, b: nat)
    requires b in h
    ensures Units(h, [b]) == h[b].size
  {
    assert [b][..0] == [];
  }

  lemma UnitsInsert(h: Heap, list: seq<nat>, k: nat, b: nat)
    requires k < |list| && b in h
    ensures Units(h, Insert(list, k, b)) == Units(h, list) + h[b].size
  {
    UnitsConcat(h, list[..k + 1], list[k + 1..]);
    assert list[..k + 1] + list[k + 1..] == list;
    UnitsConcat(h, list[..k + 1] + [b], list[k + 1..]);
    UnitsConcat(h, list[..k + 1], [b]);
    UnitsOne(h, b);
  }

  lemma UnitsWithout(h: Heap, list: seq<nat>, i: nat)
    requires i < |list| && list[i] in h
    ensures Units(h, Without(list, i)) + h[list[i]].size == Units(h, list)
  {
    UnitsConcat(h, list[..i], list[i + 1..]);
    assert list[..i] + [list[i]] + list[i + 1..] == list;
    UnitsConcat(h, list[..i] + [list[i]], list[i + 1..]);
    UnitsConcat(h, list[..i], [list[i]]);
    UnitsOne(h, list[i]);
  }

  /** Changing one block's size by d changes the total by d. */
  lemma UnitsResize(h: Heap, list: seq<nat>, i: nat, hd: Header)
    requires i < |list| && list[i] in h && forall j :: 0 <= j < |list| && j != i ==> list[j] != list[i]
    ensures Units(h[list[i] := hd], list) + h[list[i]].size == Units(h, list) + hd.size
  {
    var h' := h[list[i] := hd];
    UnitsWithout(h, list, i);
    UnitsWithout(h', list, i);
    assert forall j :: 0 <= j < |Without(list, i)| ==> Without(list, i)[j] != list[i];
    UnitsSame(h, h', Without(list, i));
  }

  // ---------------------------------------------------------------- walking the ring

  /** The ring as seen from list[f]: its successor first, list[f] itself last. */
  function Rotate(list: seq<nat>, f: nat): (r: seq<nat>)
    requires f < |list|
    ensures |r| == |list|
  {
    list[f + 1..] + list[..f + 1]
  }

  /** The place in list of the t-th block of the walk. */
  function Place(list: seq<nat>, f: nat, t: nat): (i: nat)
    requires f < |list| && t < |list|
    ensures i < |list| && list[i] == Rotate(list, f)[t]
  {
    if f + 1 + t < |list| then f + 1 + t else f + 1 + t - |list|
  }

  /** One step of p = p->s.ptr along the walk. */
  lemma WalkStep(h: Heap, list: seq<nat>, f: nat, t: nat)
    requires Ring(h, list) && f < |list| && t < |list|
    ensures var r := Rotate(list, f);
            r[t] in h && h[r[t]].ptr == if t + 1 < |list| then r[t + 1] else r[0]
  {
    RingAt(h, list, Place(list, f, t));
  }

  lemma WalkEnds(h: Heap, list: seq<nat>, f: nat, t: nat)
    requires Ascending(h, list) && f < |list| && t < |list|
    ensures Rotate(list, f)[t] == list[f] <==> t + 1 == |list|
  {
    if t + 1 < |list| {
      Distinct(h, list, Place(list, f, t), f);
    }
  }

  /** The stop condition of free's search loop holds at exactly one block: the one bp belongs after. */
  lemma SearchStops(h: Heap, list: seq<nat>, k: nat, b: nat, i: nat)
    requires Ring(h, list) && Ascending(h, list) && Belongs(h, list, k, b) && list[0] < b && i < |list|
    ensures var p := list[i];
            p in h && ((b > p && b < h[p].ptr) || (p >= h[p].ptr && (b > p || b < h[p].ptr)) <==> i == k)
  {
    RingAt(h, list, i);
    assert i > 0 ==> list[0] < list[i];
    assert i < k ==> list[i] < list[k];
    assert i + 1 < k ==> list[i + 1] < list[k];
    assert k + 1 < i ==> list[k + 1] < list[i];
    assert i + 1 < |list| ==> list[i] < list[i + 1];
  }

  /** There is always a place for a block above list[0]. */
  lemma {:induction false} FindPlace(h: Heap, list: seq<nat>, b: nat, n: nat) returns (k: nat)
    requires Ascending(h, list) && b in h && list != [] && list[0] < b && n < |list| && list[n] <= b
    requires forall i :: 0 <= i < |list| ==> Apart(h, list[i], b) && list[i] != b
    ensures Belongs(h, list, k, b)
    decreases |list| - n
  {
    if n + 1 < |list| && list[n + 1] < b {
      k := FindPlace(h, list, b, n + 1);
    } else {
      k := n;
    }
  }
}
