/** Physical frames of the copy-on-write kernel: reference counts, the free list, and the page-table
    entries that map frames.  The page tables of all processes are one map from (process, page) to
    entry; `held` are the frames the kernel keeps for itself (page-table pages, fresh allocations). */
module CowFrames {
  import opened Basics

  type Page = p: seq<Byte> | |p| == PGSIZE witness seq(PGSIZE, _ => 0)

  /** Page `page` of process `pid`. */
  datatype Slot = Slot(pid: nat, page: nat)

  ghost function Mappers(ptes: map<Slot, Pte>, f: nat): set<Slot> {
    set k | k in ptes && ptes[k].frame == f
  }

  /** A frame is counted once per entry that maps it, once if the kernel holds it, and is on the free
      list exactly when its count is zero. */
  ghost predicate Counted(refcnt: seq<nat>, free: seq<nat>, ptes: map<Slot, Pte>, held: set<nat>) {
    && (forall k :: k in ptes ==> ptes[k].frame < |refcnt| && ptes[k].frame !in held)
    && (forall f :: f in held ==> f < |refcnt|)
    && (forall f :: 0 <= f < |refcnt| ==> refcnt[f] == |Mappers(ptes, f)| + (if f in held then 1 else 0))
    && NoDup(free)
    && (forall f: nat :: f in free <==> f < |refcnt| && refcnt[f] == 0)
  }

  /** A writable entry is the only one on its frame, and no entry is both writable and marked COW. */
  ghost predicate Exclusive(refcnt: seq<nat>, ptes: map<Slot, Pte>) {
    forall k :: k in ptes && ptes[k].flags.w && ptes[k].frame < |refcnt| ==>
      refcnt[ptes[k].frame] == 1 && !ptes[k].flags.rsw
  }

  ghost predicate Accounted(refcnt: seq<nat>, free: seq<nat>, ptes: map<Slot, Pte>, held: set<nat>) {
    Counted(refcnt, free, ptes, held) && Exclusive(refcnt, ptes)
  }

  // ---------------------------------------------------------------- how each change keeps the accounts

  lemma MappersAdd(ptes: map<Slot, Pte>, k: Slot, pte: Pte, f: nat)
    requires k !in ptes
    ensures |Mappers(ptes[k := pte], f)| == |Mappers(ptes, f)| + (if pte.frame == f then 1 else 0)
  {
    assert Mappers(ptes[k := pte], f) == Mappers(ptes, f) + (if pte.frame == f then {k} else {});
  }

  lemma MappersRemove(ptes: map<Slot, Pte>, k: Slot, f: nat)
    requires k in ptes
    ensures |Mappers(ptes - {k}, f)| == |Mappers(ptes, f)| - (if ptes[k].frame == f then 1 else 0)
  {
    assert Mappers(ptes - {k}, f) == Mappers(ptes, f) - (if ptes[k].frame == f then {k} else {});
  }

  lemma MappersPut(ptes: map<Slot, Pte>, k: Slot, pte: Pte, f: nat)
    requires k in ptes
    ensures |Mappers(ptes[k := pte], f)| ==
            |Mappers(ptes, f)| - (if ptes[k].frame == f then 1 else 0) + (if pte.frame == f then 1 else 0)
  {
    MappersRemove(ptes, k, f);
    MappersAdd(ptes - {k}, k, pte, f);
    assert (ptes - {k})[k := pte] == ptes[k := pte];
  }

  /** An entry that maps a frame counted once is its only mapper. */
  lemma SoleMapper(refcnt: seq<nat>, free: seq<nat>, ptes: map<Slot, Pte>, held: set<nat>, k: Slot, k': Slot)
    requires Counted(refcnt, free, ptes, held) && k in ptes && k' in ptes
    requires refcnt[ptes[k].frame] == 1 && ptes[k'].frame == ptes[k].frame
    ensures k' == k
  {
    var ms := Mappers(ptes, ptes[k].frame);
    assert k in ms && k' in ms;
    assert |ms - {k}| == |ms| - 1 <= 0;
    assert ms - {k} == {};
  }

  /** kalloc. */
  lemma Alloc(refcnt: seq<nat>, free: seq<nat>, ptes: map<Slot, Pte>, held: set<nat>)
    requires Accounted(refcnt, free, ptes, held) && free != []
    ensures free[0] < |refcnt| && free[0] !in held
    ensures Accounted(refcnt[free[0] := 1], free[1..], ptes, held + {free[0]})
    ensures forall k :: k in ptes ==> ptes[k].frame != free[0]
  {
    var f := free[0];
    assert f in free;
    assert refcnt[f] == 0;
    assert Mappers(ptes, f) == {};
    assert f !in held;
    assert forall k :: k in ptes && ptes[k].frame == f ==> k in Mappers(ptes, f);
    forall g: nat ensures g in free[1..] <==> g < |refcnt| && refcnt[f := 1][g] == 0 {
      if g in free && g != f { var i :| 0 <= i < |free| && free[i] == g; assert free[1..][i - 1] == g; }
    }
  }

  /** A held frame becomes mapped by a new entry. */
  lemma MapHeld(refcnt: seq<nat>, free: seq<nat>, ptes: map<Slot, Pte>, held: set<nat>, k: Slot, pte: Pte)
    requires Accounted(refcnt, free, ptes, held) && k !in ptes && pte.frame in held
    requires !(pte.flags.w && pte.flags.rsw)
    ensures Accounted(refcnt, free, ptes[k := pte], held - {pte.frame})
  {
    var f := pte.frame;
    forall g | 0 <= g < |refcnt| ensures refcnt[g] == |Mappers(ptes[k := pte], g)| + (if g in held - {f} then 1 else 0) {
      MappersAdd(ptes, k, pte, g);
    }
    assert Mappers(ptes, f) == {};
  }

  /** addrefcnt with a second entry for the frame of slot k. */
  lemma Share(refcnt: seq<nat>, free: seq<nat>, ptes: map<Slot, Pte>, held: set<nat>, k: Slot, k': Slot, flags: Flags)
    requires Accounted(refcnt, free, ptes, held) && k in ptes && k' !in ptes
    requires !ptes[k].flags.w && !flags.w
    ensures var f := ptes[k].frame;
            f < |refcnt| && Accounted(refcnt[f := refcnt[f] + 1], free, ptes[k' := Pte(f, flags)], held)
  {
    var f := ptes[k].frame;
    var ptes' := ptes[k' := Pte(f, flags)];
    assert k in Mappers(ptes, f);
    forall g | 0 <= g < |refcnt|
      ensures refcnt[f := refcnt[f] + 1][g] == |Mappers(ptes', g)| + (if g in held then 1 else 0)
    {
      MappersAdd(ptes, k', Pte(f, flags), g);
    }
    forall j | j in ptes' && ptes'[j].flags.w ensures refcnt[f := refcnt[f] + 1][ptes'[j].frame] == 1 {
      if ptes[j].frame == f {
        SoleMapper(refcnt, free, ptes, held, j, k);
      }
    }
  }

  /** Changing the flags of one entry. */
  lemma Reflag(refcnt: seq<nat>, free: seq<nat>, ptes: map<Slot, Pte>, held: set<nat>, k: Slot, flags: Flags)
    requires Accounted(refcnt, free, ptes, held) && k in ptes
    requires flags.w ==> refcnt[ptes[k].frame] == 1 && !flags.rsw
    ensures Accounted(refcnt, free, ptes[k := Pte(ptes[k].frame, flags)], held)
  {
    var pte := Pte(ptes[k].frame, flags);
    forall g | 0 <= g < |refcnt| ensures |Mappers(ptes[k := pte], g)| == |Mappers(ptes, g)| {
      MappersPut(ptes, k, pte, g);
    }
  }

  /** kfree of the frame of an entry that is removed, or moved to a held frame. */
  function Dropped(refcnt: seq<nat>, f: nat): seq<nat>
    requires f < |refcnt| && refcnt[f] > 0
  {
    refcnt[f := refcnt[f] - 1]
  }

  function Pushed(free: seq<nat>, refcnt: seq<nat>, f: nat): seq<nat>
    requires f < |refcnt|
  {
    if refcnt[f] == 1 then [f] + free else free
  }

  lemma Unmap(refcnt: seq<nat>, free: seq<nat>, ptes: map<Slot, Pte>, held: set<nat>, k: Slot)
    requires Accounted(refcnt, free, ptes, held) && k in ptes
    ensures var f := ptes[k].frame;
            && f < |refcnt| && refcnt[f] > 0
            && Accounted(Dropped(refcnt, f), Pushed(free, refcnt, f), ptes - {k}, held)
            && (refcnt[f] == 1 ==> forall j :: j in ptes - {k} ==> ptes[j].frame != f)
  {
    var f := ptes[k].frame;
    assert k in Mappers(ptes, f);
    var refcnt', ptes' := Dropped(refcnt, f), ptes - {k};
    forall g | 0 <= g < |refcnt| ensures refcnt'[g] == |Mappers(ptes', g)| + (if g in held then 1 else 0) {
      MappersRemove(ptes, k, g);
    }
    forall j | j in ptes' && ptes'[j].flags.w ensures refcnt'[ptes'[j].frame] == 1 {
      if ptes[j].frame == f {
        SoleMapper(refcnt, free, ptes, held, j, k);
      }
    }
    forall j | j in ptes' && refcnt[f] == 1 ensures ptes[j].frame != f {
      if ptes[j].frame == f { SoleMapper(refcnt, free, ptes, held, k, j); }
    }
  }

  /** kfree of a held frame. */
  lemma Unhold(refcnt: seq<nat>, free: seq<nat>, ptes: map<Slot, Pte>, held: set<nat>, f: nat)
    requires Accounted(refcnt, free, ptes, held) && f in held
    ensures f < |refcnt| && refcnt[f] == 1 && Accounted(refcnt[f := 0], [f] + free, ptes, held - {f})
    ensures forall k :: k in ptes ==> ptes[k].frame != f
  {
    assert Mappers(ptes, f) == {};
  }

  /** cowalloc's copy: entry k leaves its shared frame for the held frame g. */
  lemma Move(refcnt: seq<nat>, free: seq<nat>, ptes: map<Slot, Pte>, held: set<nat>, k: Slot, pte: Pte)
    requires Accounted(refcnt, free, ptes, held) && k in ptes && pte.frame in held && !(pte.flags.w && pte.flags.rsw)
    ensures var f := ptes[k].frame;
            && f < |refcnt| && refcnt[f] > 0 && f != pte.frame
            && Accounted(Dropped(refcnt, f), Pushed(free, refcnt, f), ptes[k := pte], held - {pte.frame})
  {
    Unmap(refcnt, free, ptes, held, k);
    var f := ptes[k].frame;
    MapHeld(Dropped(refcnt, f), Pushed(free, refcnt, f), ptes - {k}, held, k, pte);
    assert (ptes - {k})[k := pte] == ptes[k := pte];
  }
}
