/** The memory processes see when fork copies every page at once (vm.c): the specification that the
    copy-on-write kernel has to meet.  Memory never runs out here. */
module EagerFork {
  import opened Basics
  import opened CowFrames

  datatype EPage = EPage(data: Page, flags: Flags)
  type Pages = map<Slot, EPage>

  /** Every process's pages, and its size in bytes. */
  datatype World = World(pages: Pages, sz: map<nat, nat>)

  /** PGROUNDUP(sz) / PGSIZE: the pages that sz bytes take. */
  function RoundUp(sz: nat): (n: nat)
    ensures sz <= n * PGSIZE < sz + PGSIZE
  {
    (sz + PGSIZE - 1) / PGSIZE
  }

  function SlotOf(p: nat, va: nat): Slot {
    Slot(p, va / PGSIZE)
  }

  /** A process has exactly the pages below its size. */
  ghost predicate Sized(keys: set<Slot>, sz: map<nat, nat>) {
    forall p: nat, v: nat :: Slot(p, v) in keys <==> p in sz && v * PGSIZE < sz[p]
  }

  function Filled(b: Byte): (page: Page)
    ensures forall i :: 0 <= i < PGSIZE ==> page[i] == b
  {
    seq(PGSIZE, _ => b)
  }

  /** The byte a process reads at address a. */
  function Load(w: Pages, p: nat, a: nat): Byte
    requires Slot(p, a / PGSIZE) in w
  {
    w[Slot(p, a / PGSIZE)].data[a % PGSIZE]
  }

  /** What loads tell of a write: process p reads the bytes at dst, and everything else reads as before. */
  ghost predicate Stored(w: Pages, w': Pages, p: nat, dst: nat, bytes: seq<Byte>) {
    && w'.Keys == w.Keys && (forall k :: k in w ==> w'[k].flags == w[k].flags)
    && forall q: nat, a: nat :: Slot(q, a / PGSIZE) in w ==>
         Load(w', q, a) == if q == p && dst <= a < dst + |bytes| then bytes[a - dst] else Load(w, q, a)
  }

  function Patch(page: Page, base: nat, dst: nat, bytes: seq<Byte>): Page {
    seq(PGSIZE, i requires 0 <= i < PGSIZE =>
      if dst <= base + i < dst + |bytes| then bytes[base + i - dst] else page[i])
  }

  /** Process p's memory with bytes written at dst; unmapped addresses are ignored. */
  function Write(w: Pages, p: nat, dst: nat, bytes: seq<Byte>): Pages {
    map k | k in w :: if k.pid == p then EPage(Patch(w[k].data, k.page * PGSIZE, dst, bytes), w[k].flags) else w[k]
  }

  predicate MayStore(w: Pages, p: nat, va: nat) {
    SlotOf(p, va) in w && w[SlotOf(p, va)].flags.u && w[SlotOf(p, va)].flags.w
  }

  /** How many of the bytes at dst lie before the first page that copyout cannot translate. */
  function Reach(w: Pages, p: nat, dst: nat, n: nat): (k: nat)
    ensures k <= n
    decreases n
  {
    if n == 0 || SlotOf(p, dst) !in w || !w[SlotOf(p, dst)].flags.u then 0
    else
      var m := PGSIZE - dst % PGSIZE;
      if n <= m then n else m + Reach(w, p, dst + m, n - m)
  }

  /** copyout can translate an address: it lies in a user page. */
  predicate Translates(w: Pages, p: nat, a: nat) {
    Slot(p, a / PGSIZE) in w && w[Slot(p, a / PGSIZE)].flags.u
  }

  /** It is the first address that cannot be translated that stops copyout. */
  lemma {:induction false} ReachIs(w: Pages, p: nat, dst: nat, n: nat)
    ensures forall a :: dst <= a < dst + Reach(w, p, dst, n) ==> Translates(w, p, a)
    ensures Reach(w, p, dst, n) < n ==> !Translates(w, p, dst + Reach(w, p, dst, n))
    decreases n
  {
    if n > 0 && Translates(w, p, dst) {
      var m := PGSIZE - dst % PGSIZE;
      forall a | dst <= a < dst + m ensures Translates(w, p, a) {
        assert a / PGSIZE == dst / PGSIZE;
      }
      if n > m {
        ReachIs(w, p, dst + m, n - m);
      }
    }
  }

  /** The child c gets copies of the first n pages of p. */
  function Fork(w: Pages, p: nat, c: nat, n: nat): Pages
    requires forall v :: 0 <= v < n ==> Slot(p, v) in w
  {
    if n == 0 then w else Fork(w, p, c, n - 1)[Slot(c, n - 1) := w[Slot(p, n - 1)]]
  }

  /** Zeroed pages from lo up to hi. */
  function Grow(w: Pages, p: nat, lo: nat, hi: nat, flags: Flags): Pages
    requires lo <= hi
    decreases hi - lo
  {
    if lo == hi then w else Grow(w, p, lo, hi - 1, flags)[Slot(p, hi - 1) := EPage(Filled(0), flags)]
  }

  /** Without the pages lo up to hi of p. */
  function Remove<T>(w: map<Slot, T>, p: nat, lo: nat, hi: nat): map<Slot, T> {
    map k | k in w && !(k.pid == p && lo <= k.page < hi) :: w[k]
  }

  lemma RemoveOne<T>(w: map<Slot, T>, p: nat, lo: nat, hi: nat)
    requires lo <= hi
    ensures Remove(w, p, lo, hi + 1) == Remove(w, p, lo, hi) - {Slot(p, hi)}
    ensures Remove(w, p, lo, lo) == w
  {
  }

  /** Taking the child away again leaves what was there before. */
  lemma ForkUndone(w: Pages, p: nat, c: nat, n: nat)
    requires (forall v :: 0 <= v < n ==> Slot(p, v) in w) && p != c && forall k :: k in w ==> k.pid != c
    ensures Remove(Fork(w, p, c, n), c, 0, n) == w
  {
    forall k: Slot ensures k in Remove(Fork(w, p, c, n), c, 0, n) <==> k in w {
      ForkAt(w, p, c, n, k);
    }
    forall k | k in w ensures Fork(w, p, c, n)[k] == w[k] {
      ForkAt(w, p, c, n, k);
    }
  }

  lemma {:induction false} ForkAt(w: Pages, p: nat, c: nat, n: nat, k: Slot)
    requires (forall v :: 0 <= v < n ==> Slot(p, v) in w) && p != c
    ensures k in Fork(w, p, c, n) <==> k in w || (k.pid == c && k.page < n)
    ensures k in Fork(w, p, c, n) ==>
              Fork(w, p, c, n)[k] == if k.pid == c && k.page < n then w[Slot(p, k.page)] else w[k]
  {
    if n > 0 {
      ForkAt(w, p, c, n - 1, k);
    }
  }

  lemma ForkNone(w: Pages, p: nat, c: nat)
    ensures Fork(w, p, c, 0) == w
  {
  }

  lemma ForkNext(w: Pages, p: nat, c: nat, i: nat)
    requires forall v :: 0 <= v <= i ==> Slot(p, v) in w
    ensures Fork(w, p, c, i + 1) == Fork(w, p, c, i)[Slot(c, i) := w[Slot(p, i)]]
  {
  }

  lemma {:induction false} GrowAt(w: Pages, p: nat, lo: nat, hi: nat, flags: Flags, k: Slot)
    requires lo <= hi
    ensures k in Grow(w, p, lo, hi, flags) <==> k in w || (k.pid == p && lo <= k.page < hi)
    ensures k in Grow(w, p, lo, hi, flags) ==>
              Grow(w, p, lo, hi, flags)[k] == if k.pid == p && lo <= k.page < hi then EPage(Filled(0), flags) else w[k]
    decreases hi - lo
  {
    if lo < hi {
      GrowAt(w, p, lo, hi - 1, flags, k);
    }
  }

  lemma GrowUndone(w: Pages, p: nat, lo: nat, hi: nat, flags: Flags)
    requires lo <= hi && forall v: nat :: lo <= v < hi ==> Slot(p, v) !in w
    ensures Remove(Grow(w, p, lo, hi, flags), p, lo, hi) == w
  {
    forall k: Slot ensures k in Remove(Grow(w, p, lo, hi, flags), p, lo, hi) <==> k in w {
      GrowAt(w, p, lo, hi, flags, k);
      assert k == Slot(k.pid, k.page);
    }
    forall k | k in w ensures Grow(w, p, lo, hi, flags)[k] == w[k] {
      GrowAt(w, p, lo, hi, flags, k);
      assert k == Slot(k.pid, k.page);
    }
  }

  // ---------------------------------------------------------------- operations

  /** root and need say how many page-table pages the new process and each mapping take; the eager
      world does not care. */
  datatype Op =
    | SpawnOp(p: nat, root: nat)
    | ForkOp(p: nat, c: nat, need: seq<nat>)
    | StoreOp(p: nat, va: nat, b: Byte)
    | CopyoutOp(p: nat, dst: nat, src: seq<Byte>)
    | GrowOp(p: nat, newsz: nat, w: bool, x: bool, need: seq<nat>)
    | ShrinkOp(p: nat, newsz: nat)
    | ExitOp(p: nat)

  /** The process exists, the new one does not, and the sizes fit the direction of the change. */
  predicate Legal(sz: map<nat, nat>, op: Op) {
    match op
    case SpawnOp(p, _) => p !in sz
    case ForkOp(p, c, need) => p in sz && c !in sz && |need| == RoundUp(sz[p])
    case StoreOp(p, _, _) => p in sz
    case CopyoutOp(p, _, _) => p in sz
    case GrowOp(p, newsz, _, _, need) => p in sz && newsz >= sz[p] && |need| == RoundUp(newsz) - RoundUp(sz[p])
    case ShrinkOp(p, newsz) => p in sz && newsz <= sz[p]
    case ExitOp(p) => p in sz
  }

  /** What the operation does when every page is copied at once. */
  ghost function Step(w: World, op: Op): World
    requires Sized(w.pages.Keys, w.sz) && Legal(w.sz, op)
  {
    match op
    case SpawnOp(p, _) => w.(sz := w.sz[p := 0])
    case ForkOp(p, c, _) => World(Fork(w.pages, p, c, RoundUp(w.sz[p])), w.sz[c := w.sz[p]])
    case StoreOp(p, va, b) => if MayStore(w.pages, p, va) then w.(pages := Write(w.pages, p, va, [b])) else w
    case CopyoutOp(p, dst, src) => w.(pages := Write(w.pages, p, dst, src[..Reach(w.pages, p, dst, |src|)]))
    case GrowOp(p, newsz, wr, x, _) =>
      World(Grow(w.pages, p, RoundUp(w.sz[p]), RoundUp(newsz), Flags(true, wr, x, true, false)), w.sz[p := newsz])
    case ShrinkOp(p, newsz) => World(Remove(w.pages, p, RoundUp(newsz), RoundUp(w.sz[p])), w.sz[p := newsz])
    case ExitOp(p) => World(Remove(w.pages, p, 0, RoundUp(w.sz[p])), w.sz - {p})
  }

  /** A process has exactly the pages below its size after every operation too, so a run never stops being
      defined. */
  lemma StepSized(w: World, op: Op)
    requires Sized(w.pages.Keys, w.sz) && Legal(w.sz, op)
    ensures var w' := Step(w, op); Sized(w'.pages.Keys, w'.sz)
  {
    hide Filled, Patch, Reach, MayStore, Fork, Grow;
    var w' := Step(w, op);
    forall p: nat, v: nat ensures Slot(p, v) in w'.pages.Keys <==> p in w'.sz && v * PGSIZE < w'.sz[p] {
      match op
      case ForkOp(q, c, _) => ForkAt(w.pages, q, c, RoundUp(w.sz[q]), Slot(p, v));
      case GrowOp(q, newsz, wr, x, _) =>
        GrowAt(w.pages, q, RoundUp(w.sz[q]), RoundUp(newsz), Flags(true, wr, x, true, false), Slot(p, v));
      case _ =>
    }
  }

  ghost predicate LegalRun(w: World, ops: seq<Op>)
    decreases |ops|
  {
    ops == [] || (Sized(w.pages.Keys, w.sz) && Legal(w.sz, ops[0]) && LegalRun(Step(w, ops[0]), ops[1..]))
  }

  ghost function EagerRun(w: World, ops: seq<Op>): World
    requires LegalRun(w, ops)
    decreases |ops|
  {
    if ops == [] then w else EagerRun(Step(w, ops[0]), ops[1..])
  }

  lemma RunStart(w: World)
    ensures LegalRun(w, []) && EagerRun(w, []) == w
  {
  }

  /** A run goes on from where its prefix ended. */
  lemma {:induction false} RunNext(w: World, ops: seq<Op>, i: nat)
    requires LegalRun(w, ops) && i < |ops|
    ensures LegalRun(w, ops[..i]) && LegalRun(w, ops[..i + 1])
    ensures var v := EagerRun(w, ops[..i]);
            Sized(v.pages.Keys, v.sz) && Legal(v.sz, ops[i]) && EagerRun(w, ops[..i + 1]) == Step(v, ops[i])
    decreases i
  {
    hide Step, Legal, Sized;
    if i == 0 {
      assert ops[..1][1..] == [];
    } else {
      var w1 := Step(w, ops[0]);
      RunNext(w1, ops[1..], i - 1);
      assert ops[..i][1..] == ops[1..][..i - 1];
      assert ops[..i + 1][1..] == ops[1..][..i];
    }
  }

  /** A write lands at its own addresses. */
  lemma WriteStores(w: Pages, p: nat, dst: nat, bytes: seq<Byte>)
    ensures Stored(w, Write(w, p, dst, bytes), p, dst, bytes)
  {
  }

  /** The child of a fork reads at every address what its parent reads there. */
  lemma ForkLoads(w: Pages, p: nat, c: nat, n: nat, q: nat, a: nat)
    requires (forall v :: 0 <= v < n ==> Slot(p, v) in w) && p != c
    ensures Slot(q, a / PGSIZE) in Fork(w, p, c, n) <==> Slot(q, a / PGSIZE) in w || (q == c && a < n * PGSIZE)
    ensures Slot(q, a / PGSIZE) in Fork(w, p, c, n) ==>
              Load(Fork(w, p, c, n), q, a) == if q == c && a < n * PGSIZE then Load(w, p, a) else Load(w, q, a)
  {
    ForkAt(w, p, c, n, Slot(q, a / PGSIZE));
  }

  /** memmove into one page. */
  lemma MemmoveIs(page: Page, v: nat, dst: nat, bytes: seq<Byte>)
    requires dst / PGSIZE == v && dst % PGSIZE + |bytes| <= PGSIZE
    ensures page[..dst % PGSIZE] + bytes + page[dst % PGSIZE + |bytes|..] == Patch(page, v * PGSIZE, dst, bytes)
  {
  }

  lemma PatchTwice(page: Page, base: nat, dst: nat, a: seq<Byte>, b: seq<Byte>)
    ensures Patch(Patch(page, base, dst, a), base, dst + |a|, b) == Patch(page, base, dst, a + b)
  {
  }

  /** A write inside one page changes that page only. */
  lemma WriteWithin(w: Pages, p: nat, dst: nat, bytes: seq<Byte>)
    requires dst % PGSIZE + |bytes| <= PGSIZE && SlotOf(p, dst) in w
    ensures var k := SlotOf(p, dst);
            Write(w, p, dst, bytes) == w[k := EPage(Patch(w[k].data, k.page * PGSIZE, dst, bytes), w[k].flags)]
  {
    var k := SlotOf(p, dst);
    forall j | j in w && j != k && j.pid == p
      ensures Patch(w[j].data, j.page * PGSIZE, dst, bytes) == w[j].data
    {
      assert j.page < k.page ==> j.page * PGSIZE + PGSIZE <= dst;
      assert j.page > k.page ==> j.page * PGSIZE >= dst + |bytes|;
    }
  }
}
