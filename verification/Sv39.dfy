/** The three-level page tables of vm.c as values: memory maps each table page to its 512 entries.  A ghost
    shape gives every table its level and the entry that points to it. */
module Sv39 {
  import opened Basics

  const ENTRIES: nat := 512
  const MAXVA: nat := 0x40_0000_0000
  const NPAGES: nat := MAXVA / PGSIZE

  /** An entry without PTE_V is None. */
  type Table = seq<Option<Pte>>
  type Memory = map<nat, Table>

  /** One entry of one table. */
  datatype Pos = Pos(table: nat, idx: nat)

  const TABLE_FLAGS := Flags(false, false, false, false, false)

  predicate Leaf(f: Flags) {
    f.r || f.w || f.x
  }

  /** PX(level, va): nine bits of the address from bit 12 + 9 * level on. */
  function Px(level: nat, va: nat): (i: nat)
    requires level <= 2
    ensures i < ENTRIES
  {
    va / (if level == 0 then 0x1000 else if level == 1 then 0x20_0000 else 0x4000_0000) % ENTRIES
  }

  function ZeroTable(): (t: Table)
    ensures |t| == ENTRIES && forall i :: 0 <= i < |t| ==> t[i] == None
  {
    seq(ENTRIES, _ => None)
  }

  /** walk(pagetable, va, 0) from table t at the given level on. */
  function WalkFrom(mem: Memory, t: nat, level: nat, va: nat): Option<Pos>
    requires level <= 2
    decreases level
  {
    if level == 0 then Some(Pos(t, Px(0, va)))
    else if t in mem && |mem[t]| == ENTRIES && mem[t][Px(level, va)].Some? then
      WalkFrom(mem, mem[t][Px(level, va)].value.frame, level - 1, va)
    else None
  }

  function At(mem: Memory, p: Pos): Option<Pte> {
    if p.table in mem && p.idx < |mem[p.table]| then mem[p.table][p.idx] else None
  }

  /** The entry that translates va below table t. */
  function TranslateFrom(mem: Memory, t: nat, level: nat, va: nat): Option<Pte>
    requires level <= 2
  {
    var p := WalkFrom(mem, t, level, va);
    if p.None? then None else At(mem, p.value)
  }

  function Translate(mem: Memory, root: nat, va: nat): Option<Pte> {
    TranslateFrom(mem, root, 2, va)
  }

  // ---------------------------------------------------------------- shape

  datatype Shape = Shape(level: map<nat, nat>, owner: map<nat, Pos>)

  ghost predicate Domains(mem: Memory, root: nat, s: Shape) {
    && root in mem && s.level.Keys == mem.Keys && s.owner.Keys == mem.Keys - {root} && s.level[root] == 2
    && forall t :: t in mem ==> |mem[t]| == ENTRIES && s.level[t] <= 2 && (s.level[t] == 2 ==> t == root)
  }

  /** Entry i of table t, above level 0: a pointer to a table of the next level that this entry owns. */
  ghost predicate Down(mem: Memory, root: nat, s: Shape, t: nat, i: nat)
    requires Domains(mem, root, s) && t in mem && i < ENTRIES
  {
    mem[t][i].Some? ==>
      var pte := mem[t][i].value;
      s.level[t] > 0 ==>
        && !Leaf(pte.flags) && pte.frame in mem && pte.frame != root && s.level[pte.frame] == s.level[t] - 1
        && s.owner[pte.frame] == Pos(t, i)
  }

  /** Every table but the root is pointed to by its owner. */
  ghost predicate Up(mem: Memory, root: nat, s: Shape, t: nat)
    requires Domains(mem, root, s) && t in mem && t != root
  {
    var p := s.owner[t];
    p.table in mem && p.idx < ENTRIES && s.level[p.table] == s.level[t] + 1
    && mem[p.table][p.idx].Some? && mem[p.table][p.idx].value.frame == t
    && (s.level[t] == 1 ==> p.idx < ENTRIES / 2)  // MAXVA is half of what the root could map
  }

  ghost predicate Linked(mem: Memory, root: nat, s: Shape) {
    && Domains(mem, root, s)
    && (forall t, i :: t in mem && 0 <= i < ENTRIES ==> Down(mem, root, s, t, i))
    && (forall t :: t in mem && t != root ==> Up(mem, root, s, t))
  }

  lemma LinkedAt(mem: Memory, root: nat, s: Shape, t: nat, i: nat)
    requires Linked(mem, root, s) && t in mem && i < ENTRIES
    ensures Domains(mem, root, s) && Down(mem, root, s, t, i) && (t != root ==> Up(mem, root, s, t))
    ensures |mem[t]| == ENTRIES && s.level.Keys == mem.Keys
  {
  }

  // ---------------------------------------------------------------- distinct pages, distinct slots

  lemma PxPage(va: nat)
    requires va < MAXVA
    ensures va / PGSIZE == Px(2, va) * 0x4_0000 + Px(1, va) * 0x200 + Px(0, va)
  {
    var v := va / PGSIZE;
    assert va / 0x20_0000 == v / 0x200;
    assert va / 0x4000_0000 == v / 0x4_0000;
    assert v / 0x4_0000 < ENTRIES;
    assert v == v / 0x200 * 0x200 + v % 0x200;
    assert v / 0x200 == v / 0x200 / 0x200 * 0x200 + v / 0x200 % 0x200;
    assert v / 0x200 / 0x200 == v / 0x4_0000;
  }

  /** Where a walk ends, and the owners along its path. */
  lemma WalkPath(mem: Memory, root: nat, s: Shape, va: nat)
    requires Linked(mem, root, s) && WalkFrom(mem, root, 2, va).Some?
    ensures var p := WalkFrom(mem, root, 2, va).value;
            && p.table in mem && p.table != root && s.level[p.table] == 0 && p.idx == Px(0, va)
            && s.owner[p.table].idx == Px(1, va) && s.owner[p.table].table in mem && s.owner[p.table].table != root
            && s.owner[s.owner[p.table].table] == Pos(root, Px(2, va))
  {
    var t1 := mem[root][Px(2, va)].value.frame;
    assert Down(mem, root, s, root, Px(2, va));
    assert Down(mem, root, s, t1, Px(1, va));
    assert WalkFrom(mem, root, 2, va) == WalkFrom(mem, t1, 1, va);
  }

  /** Distinct pages below MAXVA reach distinct leaf slots. */
  lemma SlotsDistinct(mem: Memory, root: nat, s: Shape, va: nat, va': nat)
    requires Linked(mem, root, s) && va < MAXVA && va' < MAXVA
    requires WalkFrom(mem, root, 2, va).Some? && WalkFrom(mem, root, 2, va) == WalkFrom(mem, root, 2, va')
    ensures va / PGSIZE == va' / PGSIZE
  {
    hide Linked, WalkFrom, Px;
    WalkPath(mem, root, s, va);
    WalkPath(mem, root, s, va');
    PxPage(va);
    PxPage(va');
  }

  lemma SamePage(va: nat, va': nat)
    requires va / PGSIZE == va' / PGSIZE
    ensures Px(0, va) == Px(0, va') && Px(1, va) == Px(1, va') && Px(2, va) == Px(2, va')
  {
    assert va / 0x20_0000 == va / PGSIZE / 0x200;
    assert va' / 0x20_0000 == va' / PGSIZE / 0x200;
    assert va / 0x4000_0000 == va / PGSIZE / 0x4_0000;
    assert va' / 0x4000_0000 == va' / PGSIZE / 0x4_0000;
  }

  /** All addresses of a page walk to the same slot. */
  lemma {:induction false} WalkPage(mem: Memory, t: nat, level: nat, va: nat, va': nat)
    requires level <= 2 && va / PGSIZE == va' / PGSIZE
    ensures WalkFrom(mem, t, level, va) == WalkFrom(mem, t, level, va')
    decreases level
  {
    SamePage(va, va');
    hide Px;
    if level > 0 && t in mem && |mem[t]| == ENTRIES && mem[t][Px(level, va)].Some? {
      WalkPage(mem, mem[t][Px(level, va)].value.frame, level - 1, va, va');
    }
  }

  // ---------------------------------------------------------------- writing a leaf entry

  function SetEntry(mem: Memory, p: Pos, e: Option<Pte>): Memory
    requires p.table in mem && p.idx < |mem[p.table]|
  {
    mem[p.table := mem[p.table][p.idx := e]]
  }

  lemma SetLinked(mem: Memory, root: nat, s: Shape, p: Pos, e: Option<Pte>)
    requires Linked(mem, root, s) && p.table in mem && p.idx < ENTRIES && s.level[p.table] == 0
    ensures Linked(SetEntry(mem, p, e), root, s)
  {
    var mem' := SetEntry(mem, p, e);
    assert Domains(mem', root, s);
    forall t, i | t in mem' && 0 <= i < ENTRIES ensures Down(mem', root, s, t, i) {
      SetDown(mem, root, s, p, e, t, i);
    }
    forall t | t in mem' && t != root ensures Up(mem', root, s, t) {
      assert Up(mem, root, s, t);
    }
  }

  lemma SetDown(mem: Memory, root: nat, s: Shape, p: Pos, e: Option<Pte>, t: nat, i: nat)
    requires Domains(mem, root, s) && p.table in mem && p.idx < ENTRIES && s.level[p.table] == 0
    requires t in mem && i < ENTRIES && Down(mem, root, s, t, i) && Domains(SetEntry(mem, p, e), root, s)
    ensures Down(SetEntry(mem, p, e), root, s, t, i)
  {
  }

  lemma {:induction false} SetWalk(mem: Memory, root: nat, s: Shape, p: Pos, e: Option<Pte>, t: nat, level: nat,
                                   va: nat)
    requires Linked(mem, root, s) && p.table in mem && p.idx < ENTRIES == |mem[p.table]| && s.level[p.table] == 0
    requires t in mem && s.level[t] == level <= 2
    ensures WalkFrom(SetEntry(mem, p, e), t, level, va) == WalkFrom(mem, t, level, va)
    decreases level
  {
    LinkedAt(mem, root, s, t, Px(level, va));
    hide Px, Linked, Up, Domains;
    if level > 0 && mem[t][Px(level, va)].Some? {
      SetWalk(mem, root, s, p, e, mem[t][Px(level, va)].value.frame, level - 1, va);
    }
  }

  /** Writing the leaf entry of a page changes the translation of that page and of no other. */
  lemma SetTranslates(mem: Memory, root: nat, s: Shape, va: nat, e: Option<Pte>, va': nat)
    requires Linked(mem, root, s) && va < MAXVA && va' < MAXVA && WalkFrom(mem, root, 2, va).Some?
    ensures var p := WalkFrom(mem, root, 2, va).value;
            && p.table in mem && p.idx < |mem[p.table]|
            && Translate(SetEntry(mem, p, e), root, va') ==
               if va' / PGSIZE == va / PGSIZE then e else Translate(mem, root, va')
  {
    WalkPath(mem, root, s, va);
    var p := WalkFrom(mem, root, 2, va).value;
    SetWalk(mem, root, s, p, e, root, 2, va');
    hide WalkFrom, Px;
    if va' / PGSIZE == va / PGSIZE {
      WalkPage(mem, root, 2, va, va');
    } else if WalkFrom(mem, root, 2, va').Some? {
      if WalkFrom(mem, root, 2, va') == Some(p) {
        SlotsDistinct(mem, root, s, va, va');
      }
    }
  }

  // ---------------------------------------------------------------- adding a table

  /** *pte = PA2PTE(n) | PTE_V with n a zeroed page. */
  function Link(mem: Memory, p: Pos, n: nat): Memory
    requires p.table in mem && p.idx < |mem[p.table]|
  {
    SetEntry(mem, p, Some(Pte(n, TABLE_FLAGS)))[n := ZeroTable()]
  }

  ghost function LinkShape(s: Shape, p: Pos, n: nat): Shape
    requires p.table in s.level && s.level[p.table] > 0
  {
    Shape(s.level[n := s.level[p.table] - 1], s.owner[n := p])
  }

  lemma LinkLinked(mem: Memory, root: nat, s: Shape, p: Pos, n: nat)
    requires Linked(mem, root, s) && p.table in mem && p.idx < ENTRIES && s.level[p.table] > 0
    requires n !in mem && mem[p.table][p.idx].None? && (s.level[p.table] == 2 ==> p.idx < ENTRIES / 2)
    ensures Linked(Link(mem, p, n), root, LinkShape(s, p, n))
  {
    LinkDomains(mem, root, s, p, n);
    var mem', s' := Link(mem, p, n), LinkShape(s, p, n);
    forall t, i | t in mem' && 0 <= i < ENTRIES ensures Down(mem', root, s', t, i) {
      LinkDown(mem, root, s, p, n, t, i);
    }
    forall t | t in mem' && t != root ensures Up(mem', root, s', t) {
      LinkUp(mem, root, s, p, n, t);
    }
  }

  lemma LinkDomains(mem: Memory, root: nat, s: Shape, p: Pos, n: nat)
    requires Domains(mem, root, s) && p.table in mem && p.idx < ENTRIES && s.level[p.table] > 0 && n !in mem
    ensures Domains(Link(mem, p, n), root, LinkShape(s, p, n))
  {
    assert Link(mem, p, n).Keys == mem.Keys + {n};
  }

  lemma LinkDown(mem: Memory, root: nat, s: Shape, p: Pos, n: nat, t: nat, i: nat)
    requires Domains(mem, root, s) && p.table in mem && p.idx < ENTRIES && s.level[p.table] > 0
    requires n !in mem && t in Link(mem, p, n) && i < ENTRIES && (t != n ==> Down(mem, root, s, t, i))
    requires Domains(Link(mem, p, n), root, LinkShape(s, p, n))
    ensures Down(Link(mem, p, n), root, LinkShape(s, p, n), t, i)
  {
    var mem', s' := Link(mem, p, n), LinkShape(s, p, n);
    if t != n {
      assert mem'[t][i] == if Pos(t, i) == p then Some(Pte(n, TABLE_FLAGS)) else mem[t][i];
      hide Domains;
    }
  }

  lemma LinkUp(mem: Memory, root: nat, s: Shape, p: Pos, n: nat, t: nat)
    requires Domains(mem, root, s) && p.table in mem && p.idx < ENTRIES && s.level[p.table] > 0
    requires n !in mem && mem[p.table][p.idx].None? && t in Link(mem, p, n) && t != root
    requires s.level[p.table] == 2 ==> p.idx < ENTRIES / 2
    requires t != n ==> Up(mem, root, s, t)
    requires Domains(Link(mem, p, n), root, LinkShape(s, p, n))
    ensures Up(Link(mem, p, n), root, LinkShape(s, p, n), t)
  {
    var mem' := Link(mem, p, n);
    if t != n {
      var q := s.owner[t];
      assert mem'[q.table][q.idx] == mem[q.table][q.idx];
    }
  }

  /** A new table translates nothing, so no translation changes. */
  lemma {:induction false} LinkTranslates(mem: Memory, root: nat, s: Shape, p: Pos, n: nat, t: nat, level: nat, va: nat)
    requires Linked(mem, root, s) && p.table in mem && p.idx < ENTRIES && s.level[p.table] > 0
    requires n !in mem && |mem[p.table]| == ENTRIES && mem[p.table][p.idx].None? && t in mem && s.level[t] == level <= 2
    ensures TranslateFrom(Link(mem, p, n), t, level, va) == TranslateFrom(mem, t, level, va)
    decreases level
  {
    LinkedAt(mem, root, s, t, Px(level, va));
    hide Px, Linked, Up, Domains;
    var mem' := Link(mem, p, n);
    if level > 0 {
      var i := Px(level, va);
      if Pos(t, i) == p {
        NewTable(mem', n, level - 1, va);
        assert WalkFrom(mem', t, level, va) == WalkFrom(mem', n, level - 1, va);
      } else if mem[t][i].Some? {
        LinkTranslates(mem, root, s, p, n, mem[t][i].value.frame, level - 1, va);
      }
    }
  }

  lemma NewTable(mem: Memory, n: nat, level: nat, va: nat)
    requires level <= 2 && n in mem && mem[n] == ZeroTable()
    ensures TranslateFrom(mem, n, level, va) == None
  {
  }

  /** The walk for va comes to a table at level l, 1 or 0. */
  predicate HasTable(mem: Memory, root: nat, l: nat, va: nat) {
    && root in mem && |mem[root]| == ENTRIES && mem[root][Px(2, va)].Some?
    && (l == 0 ==>
          var t := mem[root][Px(2, va)].value.frame;
          t in mem && |mem[t]| == ENTRIES && mem[t][Px(1, va)].Some?)
  }

  /** va and va' share the table at level l. */
  predicate Near(l: nat, va: nat, va': nat) {
    Px(2, va) == Px(2, va') && (l == 0 ==> Px(1, va) == Px(1, va'))
  }

  /** A table at level l covers 2^18 pages or 512. */
  function Span(l: nat): (r: nat)
    ensures r > 0
  {
    if l == 0 then 0x200 else 0x4_0000
  }

  lemma NearPages(l: nat, q: nat, q': nat)
    requires l <= 1 && q < NPAGES && q' < NPAGES
    ensures Near(l, q * PGSIZE, q' * PGSIZE) <==> q / Span(l) == q' / Span(l)
  {
    PxPages(q);
    PxPages(q');
    hide Px;
  }

  lemma PxPages(q: nat)
    requires q < NPAGES
    ensures Px(2, q * PGSIZE) == q / 0x4_0000
    ensures q / 0x200 == Px(2, q * PGSIZE) * 0x200 + Px(1, q * PGSIZE)
  {
    PxPage(q * PGSIZE);
    assert q * PGSIZE / PGSIZE == q;
    hide Px;
  }

  lemma HasTableWalk(mem: Memory, root: nat, va: nat)
    ensures WalkFrom(mem, root, 2, va).Some? <==> HasTable(mem, root, 0, va)
    ensures HasTable(mem, root, 0, va) ==> HasTable(mem, root, 1, va)
  {
    hide Px;
    if root in mem && |mem[root]| == ENTRIES && mem[root][Px(2, va)].Some? {
      assert WalkFrom(mem, root, 2, va) == WalkFrom(mem, mem[root][Px(2, va)].value.frame, 1, va);
    }
  }

  /** Writing a lowest-level entry adds and removes no table. */
  lemma SetHasTable(mem: Memory, root: nat, s: Shape, p: Pos, e: Option<Pte>, l: nat, va: nat)
    requires Linked(mem, root, s) && p.table in mem && p.idx < ENTRIES == |mem[p.table]| && s.level[p.table] == 0
    ensures HasTable(SetEntry(mem, p, e), root, l, va) <==> HasTable(mem, root, l, va)
  {
    hide Px;
    if mem[root][Px(2, va)].Some? {
      assert Down(mem, root, s, root, Px(2, va));
    }
  }

  /** A new table is there for the addresses it covers and for no others. */
  lemma LinkHasTable(mem: Memory, root: nat, s: Shape, t: nat, level: nat, va: nat, n: nat, l: nat, va': nat)
    requires Linked(mem, root, s) && 0 < level <= 2 && l <= 1 && n !in mem && t in mem && |mem[t]| == ENTRIES
    requires if level == 2 then t == root else HasTable(mem, root, 1, va) && t == mem[root][Px(2, va)].value.frame
    requires mem[t][Px(level, va)].None?
    ensures HasTable(Link(mem, Pos(t, Px(level, va)), n), root, l, va') <==>
            HasTable(mem, root, l, va') || (l == level - 1 && Near(l, va, va'))
  {
    LinkedAt(mem, root, s, root, Px(2, va));
    LinkedAt(mem, root, s, root, Px(2, va'));
    hide Px, Linked;
    assert Link(mem, Pos(t, Px(level, va)), n)[n] == ZeroTable();
  }

  // ---------------------------------------------------------------- the tables below a table

  /** The ancestor of t at the given level. */
  ghost function Ancestor(mem: Memory, root: nat, s: Shape, t: nat, level: nat): (a: nat)
    requires Linked(mem, root, s) && t in mem && s.level[t] <= level <= 2
    ensures a in mem && s.level[a] == level
    decreases level - s.level[t]
  {
    if s.level[t] == level then t
    else
      assert Up(mem, root, s, t);
      Ancestor(mem, root, s, s.owner[t].table, level)
  }

  /** f hangs below one of the first i entries of t. */
  ghost predicate Below(mem: Memory, root: nat, s: Shape, f: nat, t: nat, i: nat)
    requires Linked(mem, root, s) && t in mem
  {
    f in mem && s.level[f] < s.level[t] &&
    var o := s.owner[Ancestor(mem, root, s, f, s.level[t] - 1)];
    o.table == t && o.idx < i
  }

  /** The table pages freewalk returns, in its order, for the first i entries of t. */
  ghost function Freed(mem: Memory, root: nat, s: Shape, t: nat, i: nat): (r: seq<nat>)
    requires Linked(mem, root, s) && t in mem && i <= ENTRIES
    decreases s.level[t], i
  {
    if i == 0 then []
    else
      assert Down(mem, root, s, t, i - 1);
      Freed(mem, root, s, t, i - 1) +
      (if s.level[t] > 0 && mem[t][i - 1].Some? then FreedAll(mem, root, s, mem[t][i - 1].value.frame) else [])
  }

  /** The table pages freewalk(t) returns: those below t, then t. */
  ghost function FreedAll(mem: Memory, root: nat, s: Shape, t: nat): (r: seq<nat>)
    requires Linked(mem, root, s) && t in mem
    decreases s.level[t], ENTRIES + 1
  {
    Freed(mem, root, s, t, ENTRIES) + [t]
  }

  lemma NoDupJoin(a: seq<nat>, b: seq<nat>)
    requires NoDup(a) && NoDup(b) && forall x :: x in a ==> x !in b
    ensures NoDup(a + b)
  {
    forall i, j | 0 <= i < j < |a + b| ensures (a + b)[i] != (a + b)[j] {
      if i < |a| <= j {
        assert a[i] in a && b[j - |a|] in b;
      }
    }
  }

  /** f hangs below entry j of t exactly when it is that entry's table or hangs below it. */
  lemma BelowEntry(mem: Memory, root: nat, s: Shape, f: nat, t: nat, j: nat)
    requires Linked(mem, root, s) && t in mem && f in mem && j < ENTRIES && s.level[t] > 0 && mem[t][j].Some?
    ensures var c := mem[t][j].value.frame;
            && c in mem && s.level[c] == s.level[t] - 1
            && (Below(mem, root, s, f, t, j + 1) && !Below(mem, root, s, f, t, j) <==>
                f == c || Below(mem, root, s, f, c, ENTRIES))
  {
    assert Down(mem, root, s, t, j);
    var c := mem[t][j].value.frame;
    if s.level[f] <= s.level[c] {
      var a := Ancestor(mem, root, s, f, s.level[c]);
      assert Up(mem, root, s, a);
      if s.level[f] < s.level[c] {
        AncestorStep(mem, root, s, f, s.level[c]);
      }
    }
  }

  /** Climbing one level more goes to the owner. */
  lemma {:induction false} AncestorStep(mem: Memory, root: nat, s: Shape, f: nat, level: nat)
    requires Linked(mem, root, s) && f in mem && s.level[f] < level <= 2
    ensures var a := Ancestor(mem, root, s, f, level - 1);
            a != root && Ancestor(mem, root, s, f, level) == s.owner[a].table && s.owner[a].idx < ENTRIES
    decreases level - s.level[f]
  {
    assert Up(mem, root, s, f);
    if s.level[f] < level - 1 {
      AncestorStep(mem, root, s, s.owner[f].table, level);
    }
  }

  /** r names each table below the first i entries of t exactly once. */
  ghost predicate Collects(mem: Memory, root: nat, s: Shape, t: nat, i: nat, r: seq<nat>)
    requires Linked(mem, root, s) && t in mem
  {
    NoDup(r) && forall f :: f in r <==> Below(mem, root, s, f, t, i)
  }

  /** freewalk returns each table below t exactly once, and nothing else. */
  lemma {:induction false} FreedIs(mem: Memory, root: nat, s: Shape, t: nat, i: nat)
    requires Linked(mem, root, s) && t in mem && i <= ENTRIES
    ensures Collects(mem, root, s, t, i, Freed(mem, root, s, t, i))
    decreases s.level[t], i
  {
    if i > 0 {
      FreedIs(mem, root, s, t, i - 1);
      assert Down(mem, root, s, t, i - 1);
      if s.level[t] > 0 && mem[t][i - 1].Some? {
        FreedChild(mem, root, s, t, i);
      } else {
        NoChild(mem, root, s, t, i);
      }
    }
  }

  lemma FreedChild(mem: Memory, root: nat, s: Shape, t: nat, i: nat)
    requires Linked(mem, root, s) && t in mem && 0 < i <= ENTRIES && s.level[t] > 0 && mem[t][i - 1].Some?
    requires Collects(mem, root, s, t, i - 1, Freed(mem, root, s, t, i - 1))
    ensures Collects(mem, root, s, t, i, Freed(mem, root, s, t, i))
    decreases s.level[t], 0
  {
    LinkedAt(mem, root, s, t, i - 1);
    var c := mem[t][i - 1].value.frame;
    FreedAllIs(mem, root, s, c);
    var a, b := Freed(mem, root, s, t, i - 1), FreedAll(mem, root, s, c);
    assert Freed(mem, root, s, t, i) == a + b;
    hide Linked, Freed, FreedAll, Below, NoDup;
    forall f
      ensures f in a ==> f !in b
      ensures f in a + b <==> Below(mem, root, s, f, t, i)
    {
      ChildMember(mem, root, s, f, t, i);
    }
    NoDupJoin(a, b);
  }

  /** f hangs below the first i entries of t by entry i - 1 or by an earlier one, not by both. */
  lemma ChildMember(mem: Memory, root: nat, s: Shape, f: nat, t: nat, i: nat)
    requires Linked(mem, root, s) && t in mem && 0 < i <= ENTRIES && s.level[t] > 0 && mem[t][i - 1].Some?
    requires mem[t][i - 1].value.frame in mem
    ensures var c := mem[t][i - 1].value.frame;
            var early, late := Below(mem, root, s, f, t, i - 1), f == c || Below(mem, root, s, f, c, ENTRIES);
            !(early && late) && (early || late <==> Below(mem, root, s, f, t, i))
  {
    if f in mem {
      BelowEntry(mem, root, s, f, t, i - 1);
      BelowMore(mem, root, s, f, t, i);
    }
  }

  lemma BelowMore(mem: Memory, root: nat, s: Shape, f: nat, t: nat, i: nat)
    requires Linked(mem, root, s) && t in mem && f in mem && 0 < i
    ensures Below(mem, root, s, f, t, i - 1) ==> Below(mem, root, s, f, t, i)
  {
  }

  lemma NoChild(mem: Memory, root: nat, s: Shape, t: nat, i: nat)
    requires Linked(mem, root, s) && t in mem && 0 < i <= ENTRIES && (s.level[t] == 0 || mem[t][i - 1].None?)
    ensures forall f :: Below(mem, root, s, f, t, i) <==> Below(mem, root, s, f, t, i - 1)
  {
    forall f | Below(mem, root, s, f, t, i) ensures Below(mem, root, s, f, t, i - 1) {
      assert Up(mem, root, s, Ancestor(mem, root, s, f, s.level[t] - 1));
    }
  }

  lemma FreedAllIs(mem: Memory, root: nat, s: Shape, t: nat)
    requires Linked(mem, root, s) && t in mem
    ensures NoDup(FreedAll(mem, root, s, t))
    ensures forall f :: f in FreedAll(mem, root, s, t) <==> f == t || Below(mem, root, s, f, t, ENTRIES)
    decreases s.level[t], ENTRIES + 1
  {
    FreedIs(mem, root, s, t, ENTRIES);
    NoDupJoin(Freed(mem, root, s, t, ENTRIES), [t]);
  }

  /** freewalk from the root returns every table page exactly once. */
  lemma FreedRoot(mem: Memory, root: nat, s: Shape)
    requires Linked(mem, root, s)
    ensures NoDup(FreedAll(mem, root, s, root))
    ensures forall f :: f in FreedAll(mem, root, s, root) <==> f in mem
  {
    FreedAllIs(mem, root, s, root);
    forall f | f in mem && f != root ensures Below(mem, root, s, f, root, ENTRIES) {
      AncestorStep(mem, root, s, f, 2);
    }
  }

  // ---------------------------------------------------------------- the finite map

  function Lookup(mem: Memory, root: nat, q: nat): Option<Pte> {
    Translate(mem, root, q * PGSIZE)
  }

  /** What a page table means: the mapped pages below MAXVA and their entries. */
  ghost function View(mem: Memory, root: nat): map<nat, Pte> {
    map q: nat | 0 <= q < NPAGES && Lookup(mem, root, q).Some? :: Lookup(mem, root, q).value
  }

  /** walkaddr and every other lookup in the middle of a page see the page's entry. */
  lemma ViewAt(mem: Memory, root: nat, va: nat)
    requires va < MAXVA
    ensures Translate(mem, root, va) ==
              if va / PGSIZE in View(mem, root) then Some(View(mem, root)[va / PGSIZE]) else None
  {
    var q := va / PGSIZE;
    assert q * PGSIZE / PGSIZE == q;
    WalkPage(mem, root, 2, va, q * PGSIZE);
    hide WalkFrom;
  }

  lemma SetView(mem: Memory, root: nat, s: Shape, q: nat, e: Option<Pte>)
    requires Linked(mem, root, s) && q < NPAGES && WalkFrom(mem, root, 2, q * PGSIZE).Some?
    ensures var p := WalkFrom(mem, root, 2, q * PGSIZE).value;
            && p.table in mem && p.idx < ENTRIES == |mem[p.table]|
            && Linked(SetEntry(mem, p, e), root, s)
            && View(SetEntry(mem, p, e), root) ==
               if e.Some? then View(mem, root)[q := e.value] else View(mem, root) - {q}
  {
    hide WalkFrom, Linked, Lookup, SetEntry;
    SlotOk(mem, root, s, q * PGSIZE, e);
    var p := WalkFrom(mem, root, 2, q * PGSIZE).value;
    forall q': nat | q' < NPAGES
      ensures Lookup(SetEntry(mem, p, e), root, q') == if q' == q then e else Lookup(mem, root, q')
    {
      SetLookup(mem, root, s, q, e, q');
    }
  }

  lemma SlotOk(mem: Memory, root: nat, s: Shape, va: nat, e: Option<Pte>)
    requires Linked(mem, root, s) && WalkFrom(mem, root, 2, va).Some?
    ensures var p := WalkFrom(mem, root, 2, va).value;
            && p.table in mem && p.idx < ENTRIES == |mem[p.table]| && At(mem, p) == mem[p.table][p.idx]
            && Linked(SetEntry(mem, p, e), root, s)
  {
    WalkPath(mem, root, s, va);
    var p := WalkFrom(mem, root, 2, va).value;
    LinkedAt(mem, root, s, p.table, p.idx);
    hide WalkFrom, Linked;
    SetLinked(mem, root, s, p, e);
  }

  lemma SetLookup(mem: Memory, root: nat, s: Shape, q: nat, e: Option<Pte>, q': nat)
    requires Linked(mem, root, s) && q < NPAGES && q' < NPAGES && WalkFrom(mem, root, 2, q * PGSIZE).Some?
    ensures var p := WalkFrom(mem, root, 2, q * PGSIZE).value;
            && p.table in mem && p.idx < |mem[p.table]|
            && Lookup(SetEntry(mem, p, e), root, q') == if q' == q then e else Lookup(mem, root, q')
  {
    hide WalkFrom, Linked, Translate, SetEntry;
    SetTranslates(mem, root, s, q * PGSIZE, e, q' * PGSIZE);
    assert q' * PGSIZE / PGSIZE == q' && q * PGSIZE / PGSIZE == q;
  }

  lemma LinkView(mem: Memory, root: nat, s: Shape, p: Pos, n: nat)
    requires Linked(mem, root, s) && p.table in mem && p.idx < ENTRIES && s.level[p.table] > 0
    requires n !in mem && mem[p.table][p.idx].None?
    ensures View(Link(mem, p, n), root) == View(mem, root)
  {
    hide TranslateFrom;
    forall q: nat ensures Lookup(Link(mem, p, n), root, q) == Lookup(mem, root, q) {
      LinkTranslates(mem, root, s, p, n, root, 2, q * PGSIZE);
    }
  }

  /** Every entry of every lowest-level table belongs to some page below MAXVA. */
  lemma EntryReached(mem: Memory, root: nat, s: Shape, t: nat, i: nat)
    requires Linked(mem, root, s) && t in mem && s.level[t] == 0 && i < ENTRIES
    ensures exists q: nat :: q < NPAGES && Lookup(mem, root, q) == mem[t][i]
  {
    LinkedAt(mem, root, s, t, i);
    var o1 := s.owner[t];
    LinkedAt(mem, root, s, o1.table, o1.idx);
    var o2 := s.owner[o1.table];
    var q := o2.idx * 0x4_0000 + o1.idx * 0x200 + i;
    PxIs(o2.idx, o1.idx, i);
    hide Linked, Px, WalkFrom, Domains;
    TwoSteps(mem, root, o1.table, t, q * PGSIZE);
    assert Lookup(mem, root, q) == mem[t][i];
  }

  lemma TwoSteps(mem: Memory, root: nat, t1: nat, t0: nat, va: nat)
    requires root in mem && t1 in mem && |mem[root]| == ENTRIES == |mem[t1]|
    requires mem[root][Px(2, va)].Some? && mem[root][Px(2, va)].value.frame == t1
    requires mem[t1][Px(1, va)].Some? && mem[t1][Px(1, va)].value.frame == t0
    ensures WalkFrom(mem, root, 2, va) == Some(Pos(t0, Px(0, va)))
  {
    hide Px;
    assert WalkFrom(mem, root, 2, va) == WalkFrom(mem, t1, 1, va);
  }

  lemma PxIs(a: nat, b: nat, c: nat)
    requires a < ENTRIES && b < ENTRIES && c < ENTRIES
    ensures var va := (a * 0x4_0000 + b * 0x200 + c) * PGSIZE;
            Px(2, va) == a && Px(1, va) == b && Px(0, va) == c
  {
  }
}
