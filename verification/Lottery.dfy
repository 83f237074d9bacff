/** The lottery of scheduler() in proc.c: one round draws a ticket among the runnable processes, and all
    runnable processes get their tickets back when none is left.  The environment (processes sleeping,
    waking, forking, exiting, settickets) acts between rounds. */
module Lottery {
  import opened Basics

  datatype RunState = Unused | Used | Sleeping | Runnable | Running | Zombie

  /** struct proc, as far as the scheduler looks at it. */
  datatype Proc = Proc(state: RunState, initial: int, current: int, used: nat)

  /** What a process adds to get_total_runnable_tickets. */
  function Weight(p: Proc): int {
    if p.state.Runnable? then p.current else 0
  }

  /** Tickets of the first n processes. */
  function Prefix(ps: seq<Proc>, n: nat): int
    requires n <= |ps|
  {
    if n == 0 then 0 else Prefix(ps, n - 1) + Weight(ps[n - 1])
  }

  function Total(ps: seq<Proc>): int {
    Prefix(ps, |ps|)
  }

  predicate NonNegative(ps: seq<Proc>) {
    forall i :: 0 <= i < |ps| ==> 0 <= ps[i].current && 0 <= ps[i].initial
  }

  function Refill(p: Proc): Proc {
    if p.state.Runnable? then p.(current := p.initial) else p
  }

  /** The scheduler's first loop: reset when nobody runnable has a ticket. */
  function Refilled(ps: seq<Proc>): (r: seq<Proc>)
    ensures |r| == |ps|
  {
    if Total(ps) == 0 then seq(|ps|, i requires 0 <= i < |ps| => Refill(ps[i])) else ps
  }

  /** i holds the drawn ticket. */
  predicate Holds(ps: seq<Proc>, i: nat, draw: int) {
    i < |ps| && Prefix(ps, i) <= draw < Prefix(ps, i + 1)
  }

  /** The search loop from process i on: the first runnable process at which the running count exceeds the
      draw, or |ps| when the loop runs off the table. */
  function Pick(ps: seq<Proc>, i: nat, draw: int): (k: nat)
    requires i <= |ps|
    ensures i <= k <= |ps| && (k < |ps| ==> ps[k].state.Runnable?)
    decreases |ps| - i
  {
    if i == |ps| then i
    else if ps[i].state.Runnable? && Prefix(ps, i + 1) > draw then i
    else Pick(ps, i + 1, draw)
  }

  function Dispatch(p: Proc): Proc {
    Proc(Running, p.initial, p.current - 1, p.used + 1)
  }

  /** What follows the choice of process k: with its lock taken again, a runnable process pays and runs. */
  function Spend(ps: seq<Proc>, k: nat): (r: seq<Proc>)
    ensures |r| == |ps|
  {
    if k < |ps| && ps[k].state.Runnable? then ps[k := Dispatch(ps[k])] else ps
  }

  /** One turn of scheduler()'s for(;;) with the given result of randomrange. */
  function Round(ps: seq<Proc>, draw: int): (r: seq<Proc>)
    ensures |r| == |ps|
  {
    var ps1 := Refilled(ps);
    Spend(ps1, Pick(ps1, 0, draw))
  }

  // ---------------------------------------------------------------- who wins

  lemma {:induction false} PrefixGrows(ps: seq<Proc>, i: nat, j: nat)
    requires NonNegative(ps) && i <= j <= |ps|
    ensures Prefix(ps, i) <= Prefix(ps, j)
    decreases j
  {
    if i < j {
      PrefixGrows(ps, i, j - 1);
    }
  }

  lemma {:induction false} PickFrom(ps: seq<Proc>, i: nat, draw: int)
    requires NonNegative(ps) && i <= |ps| && Prefix(ps, i) <= draw
    ensures Pick(ps, i, draw) < |ps| ==> Holds(ps, Pick(ps, i, draw), draw)
    ensures Pick(ps, i, draw) < |ps| <==> draw < Total(ps)
    decreases |ps| - i
  {
    if i < |ps| {
      if Prefix(ps, i + 1) > draw {
        PrefixGrows(ps, i + 1, |ps|);
      } else {
        PickFrom(ps, i + 1, draw);
      }
    }
  }

  /** Process k is dispatched exactly for the draws that name one of its tickets, and the search stays inside
      the table exactly for draws below the total. */
  lemma PickIs(ps: seq<Proc>, draw: int, k: nat)
    requires NonNegative(ps) && 0 <= draw && k <= |ps|
    ensures k < |ps| ==> (Pick(ps, 0, draw) == k <==> Holds(ps, k, draw))
    ensures Pick(ps, 0, draw) == |ps| <==> Total(ps) <= draw
    ensures Pick(ps, 0, draw) < |ps| ==>
              ps[Pick(ps, 0, draw)].state.Runnable? && 1 <= ps[Pick(ps, 0, draw)].current
  {
    PickFrom(ps, 0, draw);
    var w := Pick(ps, 0, draw);
    if k < |ps| && Holds(ps, k, draw) {
      PrefixGrows(ps, k + 1, |ps|);
      if k < w {
        PrefixGrows(ps, k + 1, w);
      } else if w < k {
        PrefixGrows(ps, w + 1, k);
      }
    }
  }

  /** Number of draws below n that dispatch process k. */
  function Wins(ps: seq<Proc>, k: nat, n: nat): nat {
    if n == 0 then 0 else Wins(ps, k, n - 1) + if Pick(ps, 0, n - 1) == k then 1 else 0
  }

  lemma {:induction false} WinsBelow(ps: seq<Proc>, k: nat, n: nat)
    requires NonNegative(ps) && k < |ps|
    ensures Prefix(ps, k) >= 0 && Prefix(ps, k + 1) >= Prefix(ps, k)
    ensures Wins(ps, k, n) ==
              if n <= Prefix(ps, k) then 0
              else if n <= Prefix(ps, k + 1) then n - Prefix(ps, k) else Weight(ps[k])
  {
    PrefixGrows(ps, 0, k);
    PrefixGrows(ps, k, k + 1);
    if n > 0 {
      WinsBelow(ps, k, n - 1);
      PickIs(ps, n - 1, k);
    }
  }

  /** Of the draws below the total, each process wins exactly as many as it has tickets. */
  lemma TicketShare(ps: seq<Proc>, k: nat)
    requires NonNegative(ps) && k < |ps|
    ensures 0 <= Total(ps) && Wins(ps, k, Total(ps)) == Weight(ps[k])
  {
    PrefixGrows(ps, 0, |ps|);
    PrefixGrows(ps, k + 1, |ps|);
    WinsBelow(ps, k, Total(ps));
  }

  // ---------------------------------------------------------------- one round

  lemma RoundKeeps(ps: seq<Proc>, draw: int)
    requires NonNegative(ps) && 0 <= draw
    ensures NonNegative(Round(ps, draw))
  {
    var ps1 := Refilled(ps);
    PickIs(ps1, draw, 0);
  }

  /** Nobody runnable has a ticket left exactly when the total is zero. */
  lemma {:induction false} TotalZero(ps: seq<Proc>, i: nat)
    requires NonNegative(ps) && i < |ps| && Total(ps) == 0
    ensures Weight(ps[i]) == 0
  {
    PrefixGrows(ps, 0, i);
    PrefixGrows(ps, i + 1, |ps|);
  }

  /** What one round does to the tickets of a runnable process. */
  lemma RoundAccount(ps: seq<Proc>, draw: int, i: nat)
    requires NonNegative(ps) && i < |ps| && ps[i].state.Runnable?
    ensures var p, won := Round(ps, draw)[i], Pick(Refilled(ps), 0, draw) == i;
            && p.initial == ps[i].initial
            && p.current == (if Total(ps) == 0 then ps[i].current + ps[i].initial else ps[i].current) - (if won then 1 else 0)
            && (Total(ps) == 0 ==> ps[i].current == 0)
  {
    if Total(ps) == 0 {
      TotalZero(ps, i);
    }
  }

  // ---------------------------------------------------------------- whole runs

  /** One round: the processes before it and the draw. */
  datatype Turn = Turn(procs: seq<Proc>, draw: int)

  /** Rounds 0, 1, ... with an environment between them that may do anything, except that it leaves process i
      runnable whenever the scheduler looks, with its own tickets untouched. */
  ghost predicate AlwaysReady(turns: seq<Turn>, i: nat) {
    && (forall t :: 0 <= t < |turns| ==>
          NonNegative(turns[t].procs) && 0 <= turns[t].draw && i < |turns[t].procs| && turns[t].procs[i].state.Runnable?)
    && (forall t :: 0 <= t < |turns| - 1 ==> SameAccount(Round(turns[t].procs, turns[t].draw), turns[t + 1].procs, i))
  }

  ghost predicate SameAccount(a: seq<Proc>, b: seq<Proc>, i: nat) {
    i < |a| && i < |b| && a[i].initial == b[i].initial && a[i].current == b[i].current && a[i].used == b[i].used
  }

  /** Resets in the first n rounds. */
  function Resets(turns: seq<Turn>, n: nat): nat
    requires n <= |turns|
  {
    if n == 0 then 0 else Resets(turns, n - 1) + if Total(turns[n - 1].procs) == 0 then 1 else 0
  }

  /** Rounds among the first n that dispatch process i. */
  function Dispatches(turns: seq<Turn>, n: nat, i: nat): nat
    requires n <= |turns|
  {
    if n == 0 then 0
    else Dispatches(turns, n - 1, i) + if Pick(Refilled(turns[n - 1].procs), 0, turns[n - 1].draw) == i then 1 else 0
  }

  /** Dispatches account for every ticket: after k resets a process has used k times its initial tickets less
      what it still holds. */
  lemma {:induction false} Accounting(turns: seq<Turn>, n: nat, i: nat)
    requires AlwaysReady(turns, i) && n < |turns| && turns[0].procs[i].current <= turns[0].procs[i].initial
    ensures turns[n].procs[i].initial == turns[0].procs[i].initial
    ensures turns[n].procs[i].current <= turns[n].procs[i].initial
    ensures Dispatches(turns, n, i) ==
              turns[0].procs[i].current + Resets(turns, n) * turns[0].procs[i].initial - turns[n].procs[i].current
  {
    hide Total, Round, Refilled, Pick;
    if n > 0 {
      Accounting(turns, n - 1, i);
      assert SameAccount(Round(turns[n - 1].procs, turns[n - 1].draw), turns[n].procs, i);
      RoundAccount(turns[n - 1].procs, turns[n - 1].draw, i);
      OneMore(Resets(turns, n - 1), turns[0].procs[i].initial);
    }
  }

  /** Between one reset and the next, an always-ready process is dispatched exactly initial_tickets times. */
  lemma ShareBetweenResets(turns: seq<Turn>, m: nat, n: nat, i: nat)
    requires m < n < |turns| && AlwaysReady(turns, i) && turns[0].procs[i].current <= turns[0].procs[i].initial
    requires Total(turns[m].procs) == 0 && Total(turns[n].procs) == 0
    requires Resets(turns, n) == Resets(turns, m) + 1
    ensures Dispatches(turns, n, i) - Dispatches(turns, m, i) == turns[0].procs[i].initial
  {
    hide Total, Dispatches, Resets, Round, Refilled, Pick;
    Accounting(turns, m, i);
    Accounting(turns, n, i);
    TotalZero(turns[m].procs, i);
    TotalZero(turns[n].procs, i);
    OneMore(Resets(turns, m), turns[0].procs[i].initial);
  }

  lemma OneMore(k: nat, a: int)
    ensures (k + 1) * a == k * a + a
  {
  }

  /** Proportional share, for every draw sequence: two always-ready processes that start with their full tickets
      have run in the ratio of their tickets up to less than one allotment each. */
  lemma ProportionalShare(turns: seq<Turn>, n: nat, i: nat, j: nat)
    requires AlwaysReady(turns, i) && AlwaysReady(turns, j) && n < |turns|
    requires turns[0].procs[i].current == turns[0].procs[i].initial
    requires turns[0].procs[j].current == turns[0].procs[j].initial
    ensures var a, b := turns[0].procs[i].initial, turns[0].procs[j].initial;
            -(a * b) <= Dispatches(turns, n, i) * b - Dispatches(turns, n, j) * a <= a * b
  {
    Accounting(turns, n, i);
    Accounting(turns, n, j);
    Ratio(Resets(turns, n), turns[0].procs[i].initial, turns[0].procs[j].initial,
          turns[n].procs[i].current, turns[n].procs[j].current);
  }

  lemma Ratio(k: nat, a: int, b: int, c: int, d: int)
    requires 0 <= c <= a && 0 <= d <= b
    ensures -(a * b) <= (a + k * a - c) * b - (b + k * b - d) * a <= a * b
  {
    assert (a + k * a - c) * b - (b + k * b - d) * a == d * a - c * b by {
      assert (k * a) * b == (k * b) * a;
    }
    assert d * a <= b * a;
    assert c * b <= a * b;
  }

  // ---------------------------------------------------------------- everything that touches tickets

  /** The process table, and what each CPU's scheduler() has chosen but not yet dispatched: it lets go of the lock in
      between. */
  datatype Machine = Machine(procs: seq<Proc>, chosen: seq<Option<nat>>)

  /** A CPU chooses a process, with r the value random() returns, or pays for it and runs it; fork into a free slot,
      settickets, and any other change of a process's state. */
  datatype Event =
    | Choose(cpu: nat, r: nat) | Pay(cpu: nat)
    | Fork(parent: nat, child: nat) | SetTickets(p: nat, n: int) | Become(p: nat, state: RunState)

  predicate Possible(m: Machine, e: Event) {
    var ps := m.procs;
    match e
    case Choose(c, _) => c < |m.chosen| && m.chosen[c].None?
    case Pay(c) => c < |m.chosen| && m.chosen[c].Some?
    case Fork(p, c) => p < |ps| && c < |ps| && ps[c].state.Unused? && !ps[p].state.Unused?
    case SetTickets(p, _) => p < |ps|
    case Become(p, _) => p < |ps| && !ps[p].state.Unused?
  }

  function React(m: Machine, e: Event): Machine
    requires Possible(m, e)
  {
    var ps := m.procs;
    match e
    case Choose(c, r) =>
      var ps1 := Refilled(ps);
      Machine(ps1, m.chosen[c := Some(Pick(ps1, 0, RandomRange(r, 0, Total(ps1))))])
    case Pay(c) => Machine(Spend(ps, m.chosen[c].value), m.chosen[c := None])
    case Fork(p, c) => m.(procs := ps[c := Proc(Runnable, ps[p].initial, ps[p].initial, ps[c].used)])
    case SetTickets(p, n) => if n < 1 then m else m.(procs := ps[p := ps[p].(initial := n)])
    case Become(p, state) => m.(procs := ps[p := ps[p].(state := state)])
  }

  /** A choice that is paid for at once is a round. */
  lemma ChooseThenPay(m: Machine, c: nat, r: nat)
    requires Possible(m, Choose(c, r))
    ensures var m1 := React(m, Choose(c, r));
            && Possible(m1, Pay(c))
            && React(m1, Pay(c)) == m.(procs := Round(m.procs, RandomRange(r, 0, Total(Refilled(m.procs)))))
  {
    assert m.chosen[c := None] == m.chosen;
  }

  /** settickets takes effect at the next reset, for a positive number of tickets, and changes nothing else. */
  lemma TicketsSet(m: Machine, p: nat, n: int, c: nat, r: nat)
    requires p < |m.procs| && Possible(m, SetTickets(p, n))
    ensures var m' := React(m, SetTickets(p, n));
            && (n < 1 ==> m' == m)
            && m'.chosen == m.chosen && |m'.procs| == |m.procs|
            && (forall i :: 0 <= i < |m.procs| ==>
                  m'.procs[i].current == m.procs[i].current && m'.procs[i].state == m.procs[i].state)
            && (forall i :: 0 <= i < |m.procs| && i != p ==> m'.procs[i] == m.procs[i])
            && (n >= 1 && m.procs[p].state.Runnable? && Total(m'.procs) == 0 && Possible(m', Choose(c, r)) ==>
                  React(m', Choose(c, r)).procs[p].current == n)
  {
  }

  /** No ticket count is negative, and every process has tickets to get back. */
  predicate Solvent(ps: seq<Proc>) {
    NonNegative(ps) && forall i :: 0 <= i < |ps| && !ps[i].state.Unused? ==> 1 <= ps[i].initial
  }

  /** The table when the scheduler starts: the first process has one ticket. */
  function Booted(n: nat): (ps: seq<Proc>)
    requires 0 < n
    ensures |ps| == n
  {
    [Proc(Runnable, 1, 1, 0)] + seq(n - 1, _ => Proc(Unused, 0, 0, 0))
  }

  ghost predicate Run(ms: seq<Machine>, es: seq<Event>, n: nat, cpus: nat) {
    && 0 < n && |ms| == |es| + 1 && ms[0] == Machine(Booted(n), seq(cpus, _ => None))
    && forall j :: 0 <= j < |es| ==> Possible(ms[j], es[j]) && ms[j + 1] == React(ms[j], es[j])
  }

  /** What one CPU keeps: a process it has chosen still has the ticket it was chosen for. */
  predicate Covered(m: Machine) {
    && Solvent(m.procs) && |m.chosen| <= 1
    && forall c :: 0 <= c < |m.chosen| && m.chosen[c].Some? && m.chosen[c].value < |m.procs| ==>
         1 <= m.procs[m.chosen[c].value].current
  }

  lemma ReactCovered(m: Machine, e: Event)
    requires Covered(m) && Possible(m, e)
    ensures Covered(React(m, e))
  {
    if e.Choose? {
      var ps := Refilled(m.procs);
      PrefixGrows(ps, 0, |ps|);
      PickIs(ps, RandomRange(e.r, 0, Total(ps)), 0);
      hide Pick, Prefix;
    }
  }

  /** With one CPU, no process has a negative number of tickets in any state of any run. */
  lemma {:induction false} NeverNegative(ms: seq<Machine>, es: seq<Event>, n: nat, cpus: nat, k: nat)
    requires Run(ms, es, n, cpus) && cpus <= 1 && k < |ms|
    ensures Covered(ms[k])
  {
    if k > 0 {
      NeverNegative(ms, es, n, cpus, k - 1);
      ReactCovered(ms[k - 1], es[k - 1]);
    }
  }

  /** As long as some process is runnable, some draw dispatches one. */
  lemma SomeoneCanWin(ps: seq<Proc>, i: nat)
    requires Solvent(ps) && i < |ps| && ps[i].state.Runnable?
    ensures 1 <= Total(Refilled(ps)) && Pick(Refilled(ps), 0, 0) < |ps|
  {
    var ps1 := Refilled(ps);
    if Total(ps) == 0 {
      PrefixGrows(ps1, 0, i);
      PrefixGrows(ps1, i + 1, |ps1|);
    } else {
      PrefixGrows(ps, 0, |ps|);
    }
    PickIs(ps1, 0, 0);
  }

  /** Spending takes a process below zero exactly when it has no ticket left by then. */
  lemma SpendExact(ps: seq<Proc>, k: nat)
    requires NonNegative(ps)
    ensures NonNegative(Spend(ps, k)) <==> !(k < |ps| && ps[k].state.Runnable? && ps[k].current == 0)
  {
    if k < |ps| && ps[k].state.Runnable? {
      assert Spend(ps, k)[k].current == ps[k].current - 1;
    }
  }

  // ---------------------------------------------------------------- randomrange

  /** randomrange on the value r of random(). */
  function RandomRange(r: nat, lo: int, hi: int): int {
    if hi < lo then r % (lo - hi + 1) + hi else r % (hi - lo + 1) + lo
  }

  lemma RemainderIs(x: int, q: int, n: int, m: int)
    requires 0 <= m < n && x == q * n + m
    ensures x % n == m
  {
    var d := x / n - q;
    assert d * n == m - x % n;
    Multiple(d, n);
  }

  lemma Multiple(d: int, n: int)
    requires n > 0
    ensures d * n >= n || d * n <= -n || d == 0
  {
  }

  /** The next value of random() draws the next number, and lo after hi; the ends of the range may be swapped. */
  lemma RandomRangeNext(r: nat, lo: int, hi: int)
    requires lo <= hi
    ensures lo <= RandomRange(r, lo, hi) <= hi && RandomRange(r, hi, lo) == RandomRange(r, lo, hi)
    ensures RandomRange(r + 1, lo, hi) == if RandomRange(r, lo, hi) == hi then lo else RandomRange(r, lo, hi) + 1
  {
    var n := hi - lo + 1;
    var q, m := r / n, r % n;
    assert r == q * n + m;
    if m + 1 < n {
      RemainderIs(r + 1, q, n, m + 1);
    } else {
      assert (q + 1) * n == q * n + n;
      RemainderIs(r + 1, q + 1, n, 0);
    }
  }

  lemma {:induction false} RandomRangeFrom(start: nat, k: nat, lo: int, hi: int)
    requires lo <= hi && k <= hi - lo
    ensures var a := RandomRange(start, lo, hi);
            lo <= a <= hi && RandomRange(start + k, lo, hi) == if a + k <= hi then a + k else a + k - (hi - lo + 1)
  {
    hide RandomRange;
    RandomRangeNext(start, lo, hi);
    if k > 0 {
      RandomRangeFrom(start, k - 1, lo, hi);
      RandomRangeNext(start + k - 1, lo, hi);
    }
  }

  /** Every number from lo to hi is drawn by exactly one of any hi - lo + 1 consecutive values of random(). */
  lemma RandomRangeEven(start: nat, lo: int, hi: int, x: int)
    requires lo <= x <= hi
    ensures forall r: nat :: RandomRange(r, hi, lo) == RandomRange(r, lo, hi)
    ensures exists r: nat :: start <= r <= start + (hi - lo) && RandomRange(r, lo, hi) == x
    ensures forall r: nat, r': nat :: start <= r <= r' <= start + (hi - lo) ==>
              RandomRange(r, lo, hi) == RandomRange(r', lo, hi) ==> r == r'
  {
    hide RandomRange;
    forall r: nat ensures RandomRange(r, hi, lo) == RandomRange(r, lo, hi) {
      RandomRangeNext(r, lo, hi);
    }
    RandomRangeFrom(start, 0, lo, hi);
    var a := RandomRange(start, lo, hi);
    var k := if x >= a then x - a else x - a + (hi - lo + 1);
    RandomRangeFrom(start, k, lo, hi);
    forall r: nat, r': nat | start <= r <= r' <= start + (hi - lo)
      ensures RandomRange(r, lo, hi) == RandomRange(r', lo, hi) ==> r == r'
    {
      RandomRangeFrom(start, r - start, lo, hi);
      RandomRangeFrom(start, r' - start, lo, hi);
    }
  }

  /** The range includes its upper end: a draw of the scheduler runs off the table for some value of random(),
      whatever the tickets. */
  lemma DrawReachesTotal(ps: seq<Proc>)
    requires NonNegative(ps)
    ensures forall r: nat :: 0 <= RandomRange(r, 0, Total(ps)) <= Total(ps)
    ensures Pick(ps, 0, RandomRange(Total(ps), 0, Total(ps))) == |ps|
  {
    PrefixGrows(ps, 0, |ps|);
    PickIs(ps, Total(ps), |ps|);
  }

  // ---------------------------------------------------------------- more than one CPU

  lemma Extend(ms: seq<Machine>, es: seq<Event>, n: nat, cpus: nat, e: Event) returns (ms': seq<Machine>, es': seq<Event>)
    requires Run(ms, es, n, cpus) && Possible(ms[|ms| - 1], e)
    ensures Run(ms', es', n, cpus) && ms'[|ms'| - 1] == React(ms[|ms| - 1], e)
  {
    hide Possible, React;
    ms', es' := ms + [React(ms[|ms| - 1], e)], es + [e];
  }

  /** k is the only runnable process, and has one ticket. */
  predicate Alone(ps: seq<Proc>, k: nat) {
    && k < |ps| && ps[k].state.Runnable? && ps[k].current == 1
    && forall i :: 0 <= i < |ps| && i != k ==> !ps[i].state.Runnable? && 0 <= ps[i].current && 0 <= ps[i].initial
  }

  lemma {:induction false} AlonePrefix(ps: seq<Proc>, k: nat, i: nat)
    requires Alone(ps, k) && i <= |ps|
    ensures Prefix(ps, i) == if i <= k then 0 else 1
  {
    if i > 0 {
      AlonePrefix(ps, k, i - 1);
    }
  }

  /** Whoever chooses then chooses k. */
  lemma AloneChosen(m: Machine, c: nat, k: nat)
    requires Alone(m.procs, k) && 0 <= m.procs[k].initial && Possible(m, Choose(c, 0))
    ensures React(m, Choose(c, 0)) == m.(chosen := m.chosen[c := Some(k)])
  {
    AlonePrefix(m.procs, k, k);
    AlonePrefix(m.procs, k, k + 1);
    AlonePrefix(m.procs, k, |m.procs|);
    PickIs(m.procs, 0, k);
  }

  /** Two CPUs choose k, it runs on the first and is ready again when the second comes to it. */
  lemma SpentTwice(ms: seq<Machine>, es: seq<Event>, n: nat, cpus: nat, k: nat)
    returns (ms': seq<Machine>, es': seq<Event>)
    requires Run(ms, es, n, cpus) && 2 <= cpus && Alone(ms[|ms| - 1].procs, k) && 0 <= ms[|ms| - 1].procs[k].initial
    requires ms[|ms| - 1].chosen == seq(cpus, _ => None)
    ensures Run(ms', es', n, cpus)
    ensures var was, now := ms[|ms| - 1].procs, ms'[|ms'| - 1];
            && now.chosen == seq(cpus, _ => None)
            && now.procs == was[k := Proc(Running, was[k].initial, -1, was[k].used + 2)]
  {
    var m := ms[|ms| - 1];
    AloneChosen(m, 0, k);
    ms', es' := Extend(ms, es, n, cpus, Choose(0, 0));
    AloneChosen(ms'[|ms'| - 1], 1, k);
    ms', es' := Extend(ms', es', n, cpus, Choose(1, 0));
    hide Pick, Prefix, Run;
    ms', es' := Extend(ms', es', n, cpus, Pay(0));
    ms', es' := Extend(ms', es', n, cpus, Become(k, Runnable));
    ms', es' := Extend(ms', es', n, cpus, Pay(1));
    assert ms'[|ms'| - 1].chosen == m.chosen;
  }

  ghost predicate GoesBelow(n: nat, cpus: nat, bound: int) {
    exists ms, es :: Run(ms, es, n, cpus) && exists i :: 0 <= i < n && Below(ms, i, bound)
  }

  ghost predicate Below(ms: seq<Machine>, i: nat, bound: int) {
    |ms| > 0 && i < |ms[|ms| - 1].procs| && ms[|ms| - 1].procs[i].current < bound
  }

  /** Some run takes a process below zero if and only if there is more than one CPU. */
  lemma NegativeExactly(n: nat, cpus: nat)
    requires 0 < n
    ensures GoesBelow(n, cpus, 0) <==> 2 <= cpus
  {
    if 2 <= cpus {
      var m := Machine(Booted(n), seq(cpus, _ => None));
      var ms, es := SpentTwice([m], [], n, cpus, 0);
      assert Below(ms, 0, 0);
    } else if GoesBelow(n, cpus, 0) {
      var ms, es :| Run(ms, es, n, cpus) && exists i :: 0 <= i < n && Below(ms, i, 0);
      NeverNegative(ms, es, n, cpus, |ms| - 1);
    }
  }

  /** Only the first two processes are runnable, and the second is in debt. */
  predicate InDebt(m: Machine, current: int, n: nat, cpus: nat) {
    && |m.procs| == n >= 2 && m.procs[0].state.Runnable? && m.procs[0].current == current <= 0
    && m.procs[1].state.Runnable? && m.procs[1].current == -1
    && (forall i :: 2 <= i < n ==> !m.procs[i].state.Runnable?)
    && m.chosen == seq(cpus, _ => None)
  }

  lemma {:induction false} DebtPrefix(m: Machine, current: int, n: nat, cpus: nat, i: nat)
    requires InDebt(m, current, n, cpus) && 2 <= i <= n
    ensures Prefix(m.procs, i) == current - 1 && Prefix(m.procs, 1) == current
  {
    if i > 2 {
      DebtPrefix(m, current, n, cpus, i - 1);
    } else {
      assert Prefix(m.procs, 1) == Prefix(m.procs, 0) + Weight(m.procs[0]);
    }
  }

  /** The total is negative then, so the draw can be, and the first process wins with no ticket at all. */
  lemma DebtGrows(ms: seq<Machine>, es: seq<Event>, n: nat, cpus: nat, current: int)
    returns (ms': seq<Machine>, es': seq<Event>)
    requires Run(ms, es, n, cpus) && 0 < cpus && InDebt(ms[|ms| - 1], current, n, cpus)
    ensures Run(ms', es', n, cpus) && InDebt(ms'[|ms'| - 1], current - 1, n, cpus)
  {
    var m := ms[|ms| - 1];
    DebtPrefix(m, current, n, cpus, n);
    var m1 := React(m, Choose(0, 0));
    assert RandomRange(0, 0, current - 1) == current - 1;
    assert m1.procs == m.procs && m1.chosen[0] == Some(0);
    ms', es' := Extend(ms, es, n, cpus, Choose(0, 0));
    hide Pick, Prefix, Run;
    ms', es' := Extend(ms', es', n, cpus, Pay(0));
    ms', es' := Extend(ms', es', n, cpus, Become(0, Runnable));
    assert ms'[|ms'| - 1].chosen == m.chosen;
  }

  lemma DebtStarts(n: nat, cpus: nat) returns (ms: seq<Machine>, es: seq<Event>)
    requires 2 <= n && 2 <= cpus
    ensures Run(ms, es, n, cpus) && InDebt(ms[|ms| - 1], 0, n, cpus)
  {
    var m := Machine(Booted(n), seq(cpus, _ => None));
    assert Run([m], [], n, cpus);
    AloneChosen(m, 0, 0);
    ms, es := Extend([m], [], n, cpus, Choose(0, 0));
    hide Pick, Prefix, Run;
    ms, es := Extend(ms, es, n, cpus, Pay(0));
    ms, es := Extend(ms, es, n, cpus, Fork(0, 1));
    ms, es := Extend(ms, es, n, cpus, Become(0, Sleeping));
    assert ms[|ms| - 1].chosen == m.chosen;
    ms, es := SpentTwice(ms, es, n, cpus, 1);
    ms, es := Extend(ms, es, n, cpus, Become(1, Runnable));
    ms, es := Extend(ms, es, n, cpus, Become(0, Runnable));
  }

  lemma {:induction false} DebtRun(n: nat, cpus: nat, k: nat) returns (ms: seq<Machine>, es: seq<Event>)
    requires 2 <= n && 2 <= cpus
    ensures Run(ms, es, n, cpus) && InDebt(ms[|ms| - 1], 0 - k, n, cpus)
  {
    hide Run, InDebt;
    if k == 0 {
      ms, es := DebtStarts(n, cpus);
    } else {
      ms, es := DebtRun(n, cpus, k - 1);
      ms, es := DebtGrows(ms, es, n, cpus, 1 - k);
    }
  }

  /** With more than one CPU there is no lower bound: a total below zero makes draws below zero, and those go to
      processes without tickets. */
  lemma NoLowerBound(n: nat, cpus: nat, k: nat)
    requires 2 <= n && 2 <= cpus
    ensures GoesBelow(n, cpus, 0 - k)
  {
    var ms, es := DebtRun(n, cpus, k + 1);
    assert Below(ms, 0, 0 - k);
  }

  // ---------------------------------------------------------------- the loops

  class Scheduler {
    const proc: array<Proc>

    constructor (n: nat)
      ensures fresh(proc) && proc.Length == n
      ensures forall i :: 0 <= i < n ==> proc[i] == Proc(Unused, 0, 0, 0)
    {
      proc := new Proc[n](_ => Proc(Unused, 0, 0, 0));
    }

    method TotalRunnable() returns (total: int)
      ensures total == Total(proc[..])
    {
      total := 0;
      for i := 0 to proc.Length
        invariant total == Prefix(proc[..], i)
      {
        if proc[i].state.Runnable? {
          total := total + proc[i].current;
        }
      }
    }

    method Reset()
      modifies proc
      ensures proc[..] == Refilled(old(proc[..]))
    {
      var total := TotalRunnable();
      if total == 0 {
        for i := 0 to proc.Length
          invariant forall j :: 0 <= j < i ==> proc[j] == Refill(old(proc[j]))
          invariant forall j :: i <= j < proc.Length ==> proc[j] == old(proc[j])
        {
          if proc[i].state.Runnable? {
            proc[i] := proc[i].(current := proc[i].initial);
          }
        }
      }
    }

    method Search(draw: int) returns (p: nat)
      ensures p == Pick(proc[..], 0, draw)
    {
      var count := 0;
      p := 0;
      while p < proc.Length
        invariant p <= proc.Length
        invariant count == Prefix(proc[..], p)
        invariant Pick(proc[..], 0, draw) == Pick(proc[..], p, draw)
      {
        if proc[p].state.Runnable? {
          count := count + proc[p].current;
          if count > draw {
            return;
          }
        }
        p := p + 1;
      }
    }

    /** One turn, with r the value random() returns. */
    method RunOnce(r: nat) returns (p: nat)
      requires NonNegative(proc[..])
      modifies proc
      ensures var draw := RandomRange(r, 0, Total(Refilled(old(proc[..]))));
              proc[..] == Round(old(proc[..]), draw) && p == Pick(Refilled(old(proc[..])), 0, draw)
      ensures NonNegative(proc[..])
      ensures p < proc.Length ==> proc[p].state.Running? && proc[p].used == old(proc[p].used) + 1
    {
      Reset();
      var total := TotalRunnable();
      PrefixGrows(proc[..], 0, proc.Length);
      var draw := RandomRange(r, 0, total);
      RoundKeeps(old(proc[..]), draw);
      p := Search(draw);
      if p < proc.Length {
        PickIs(proc[..], draw, p);
        proc[p] := Dispatch(proc[p]);
      }
    }
  }
}
