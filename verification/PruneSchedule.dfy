/** Which destination's namespace the pruners visit at each tick (pruneBaseSeqNum in chain/aleo/client.go and
    chain/ethereum/client.go). The Aleo pruner moves on after every pass, the Ethereum pruner only after a pass that
    reported a gap. */
module PruneSchedule {
  import opened Prune
  import opened Records

  // reports(t, ns): whether a pass over namespace ns at tick t reports a gap. Any completions may come in between.
  type Reports = (nat, nat) -> bool

  // ---------- Aleo ----------

  // The value of `index` before tick t, and the namespace tick t visits.
  function AleoIndex(n: nat, t: nat): (i: nat)
    requires n > 0
    ensures i <= n
    decreases t, 0
  {
    if t == 0 then 0 else AleoVisit(n, t - 1) + 1
  }

  function AleoVisit(n: nat, t: nat): (i: nat)
    requires n > 0
    ensures i < n
    decreases t, 1
  {
    if AleoIndex(n, t) == n then 0 else AleoIndex(n, t)
  }

  class AleoPruner {
    const namespaces: nat
    var index: nat
    ghost var ticks: nat

    ghost predicate Valid() reads this {
      namespaces > 0 && index == AleoIndex(namespaces, ticks)
    }

    constructor (namespaces: nat)
      requires namespaces > 0
      ensures Valid() && ticks == 0 && this.namespaces == namespaces
    {
      this.namespaces := namespaces;
      index, ticks := 0, 0;
    }

    /** Tick t visits namespace t modulo their number, whatever the passes report. */
    method Tick() returns (visited: nat)
      requires Valid()
      modifies this
      ensures Valid() && ticks == old(ticks) + 1
      ensures visited == AleoVisit(namespaces, old(ticks)) == old(ticks) % namespaces
    {
      AleoTurn(namespaces, ticks);
      if index == namespaces {
        index := 0;
      }
      visited := index;
      index := index + 1;
      ticks := ticks + 1;
    }
  }

  lemma MultipleIsBig(d: int, n: nat)
    ensures d >= 1 ==> d * n >= n
    ensures d <= -1 ==> d * n + n <= 0
  {
    if d >= 1 { assert (d - 1) * n >= 0; }
    if d <= -1 { assert (-d - 1) * n >= 0; }
  }

  lemma Remainder(x: nat, q: nat, r: nat, n: nat)
    requires 0 <= r < n && x == q * n + r
    ensures x % n == r
  {
    var d := x / n - q;
    assert x == (x / n) * n + x % n;
    assert d * n == r - x % n;
    MultipleIsBig(d, n);
  }

  lemma NextTurn(t: nat, n: nat, i: nat)
    requires i < n && i == t % n
    ensures (t + 1) % n == (if i + 1 == n then 0 else i + 1) == (i + 1) % n
  {
    var q := t / n;
    assert t == q * n + i;
    if i + 1 == n {
      assert t + 1 == (q + 1) * n;
      Remainder(t + 1, q + 1, 0, n);
      Remainder(n, 1, 0, n);
    } else {
      Remainder(t + 1, q, i + 1, n);
      Remainder(i + 1, 0, i + 1, n);
    }
  }

  lemma {:induction false} AleoTurn(n: nat, t: nat)
    requires n > 0
    ensures AleoVisit(n, t) == t % n
  {
    if t > 0 {
      AleoTurn(n, t - 1);
      NextTurn(t - 1, n, AleoVisit(n, t - 1));
    }
  }

  /** No destination waits longer than the number of destinations: any so many ticks in a row visit them all. */
  lemma AleoVisitsAll(n: nat, ns: nat, t: nat) returns (u: nat)
    requires ns < n
    ensures t <= u < t + n && AleoVisit(n, u) == ns
  {
    var q, r := t / n, t % n;
    assert t == q * n + r;
    if r <= ns {
      u := t + (ns - r);
      Remainder(u, q, ns, n);
    } else {
      u := t + (n - r + ns);
      assert u == (q + 1) * n + ns;
      Remainder(u, q + 1, ns, n);
    }
    AleoTurn(n, u);
  }

  // ---------- Ethereum ----------

  // The namespace the Ethereum pruner visits at tick t.
  function EthereumVisit(n: nat, reports: Reports, t: nat): (i: nat)
    requires n > 0
    ensures i < n
  {
    if t == 0 then 0
    else
      var i := EthereumVisit(n, reports, t - 1);
      if reports(t - 1, i) then (i + 1) % n else i
  }

  class EthereumPruner {
    const namespaces: nat
    var index: nat
    ghost const reports: Reports
    ghost var ticks: nat

    ghost predicate Valid() reads this {
      namespaces > 0 && index == EthereumVisit(namespaces, reports, ticks)
    }

    constructor (namespaces: nat, ghost reports: Reports)
      requires namespaces > 0
      ensures Valid() && ticks == 0 && this.namespaces == namespaces && this.reports == reports
    {
      this.namespaces := namespaces;
      this.reports := reports;
      index, ticks := 0, 0;
    }

    // One tick, given what the pass over the visited namespace reports.
    method Tick(shouldFetch: bool) returns (visited: nat)
      requires Valid() && shouldFetch == reports(ticks, index)
      modifies this
      ensures Valid() && ticks == old(ticks) + 1
      ensures visited == EthereumVisit(namespaces, reports, old(ticks))
    {
      visited := index;
      ticks := ticks + 1;
      if !shouldFetch { return; }
      index := (index + 1) % namespaces;
    }
  }

  function GapsReported(n: nat, reports: Reports, t: nat): nat
    requires n > 0
  {
    if t == 0 then 0
    else GapsReported(n, reports, t - 1) + if reports(t - 1, EthereumVisit(n, reports, t - 1)) then 1 else 0
  }

  /** Its turn counts gap reports, not ticks. */
  lemma {:induction false} EthereumTurn(n: nat, reports: Reports, t: nat)
    requires n > 0
    ensures EthereumVisit(n, reports, t) == GapsReported(n, reports, t) % n
  {
    if t > 0 {
      EthereumTurn(n, reports, t - 1);
      NextTurn(GapsReported(n, reports, t - 1), n, EthereumVisit(n, reports, t - 1));
    }
  }

  lemma Moves(n: nat, i: nat)
    requires n > 1 && i < n
    ensures (i + 1) % n != i
  {
    if i + 1 < n { Remainder(i + 1, 0, i + 1, n); } else { Remainder(n, 1, 0, n); }
  }

  lemma {:induction false} EthereumWaits(n: nat, reports: Reports, t: nat, u: nat)
    requires n > 0 && t <= u
    requires forall v: nat | t <= v < u :: !reports(v, EthereumVisit(n, reports, t))
    ensures EthereumVisit(n, reports, u) == EthereumVisit(n, reports, t)
    decreases u - t
  {
    if t < u { EthereumWaits(n, reports, t, u - 1); }
  }

  lemma EthereumLeaves(n: nat, reports: Reports, i: nat, v: nat) returns (w: nat)
    requires n > 1 && i < n && reports(v, i)
    ensures v <= w <= v + 1 && EthereumVisit(n, reports, w) != i
  {
    Moves(n, i);
    w := if EthereumVisit(n, reports, v) == i then v + 1 else v;
  }

  // Ticks t to u all visit namespace i.
  predicate KeepsTo(n: nat, reports: Reports, i: nat, t: nat, u: nat)
    requires n > 0
  {
    forall v: nat | t <= v <= u :: EthereumVisit(n, reports, v) == i
  }

  predicate NoGapIn(reports: Reports, i: nat, t: nat, u: nat) {
    forall v: nat | t <= v < u :: !reports(v, i)
  }

  /** With several destinations, the Ethereum pruner keeps to one of them over any stretch of ticks exactly when that
      one reports no gap during the stretch. However many gaps the others have, nobody prunes or re-fetches them. */
  lemma EthereumKeepsToOneIff(n: nat, reports: Reports, t: nat, u: nat)
    requires n > 1 && t <= u
    ensures var i := EthereumVisit(n, reports, t); KeepsTo(n, reports, i, t, u) <==> NoGapIn(reports, i, t, u)
  {
    var i := EthereumVisit(n, reports, t);
    if NoGapIn(reports, i, t, u) {
      forall v: nat | t <= v <= u ensures EthereumVisit(n, reports, v) == i { EthereumWaits(n, reports, t, v); }
    } else {
      var v: nat :| t <= v < u && reports(v, i);
      var w := EthereumLeaves(n, reports, i, v);
    }
  }

  // ---------- Ethereum, over real namespaces ----------

  // stores(t, ns): the records of namespace ns when tick t prunes it.
  type Stores = (nat, nat) -> seq<Rec>

  // The keys a pass looks at are one run.
  predicate OneRun(rs: seq<Rec>) { Consecutive(rs, Min(1000, |rs|)) }

  // A pass over reports a gap exactly where the namespace has one among its first thousand keys.
  ghost predicate Reporting(reports: Reports, stores: Stores) {
    forall t, ns :: reports(t, ns) <==> FirstGap(stores(t, ns)).Some?
  }

  /** Over any stretch of ticks, the Ethereum pruner keeps to one destination exactly while that destination's first
      thousand keys are one run at each visit: the better a destination does, the longer the others wait. */
  lemma EthereumKeepsToOneRun(n: nat, reports: Reports, stores: Stores, t: nat, u: nat)
    requires n > 1 && t <= u && Reporting(reports, stores)
    ensures var i := EthereumVisit(n, reports, t);
            KeepsTo(n, reports, i, t, u) <==> forall v: nat | t <= v < u :: OneRun(stores(v, i))
  {
    var i := EthereumVisit(n, reports, t);
    EthereumKeepsToOneIff(n, reports, t, u);
    forall v: nat ensures reports(v, i) <==> !OneRun(stores(v, i)) { NoGapIffOneRun(stores(v, i)); }
  }

  // Every number from the first key to the last is there.
  ghost predicate Unbroken(rs: seq<Rec>) {
    |rs| > 0 && Consecutive(rs, |rs|)
  }

  lemma UnbrokenOneRun(rs: seq<Rec>)
    requires Unbroken(rs)
    ensures OneRun(rs)
  {
  }

  lemma PruneKeepsUnbroken(rs: seq<Rec>)
    requires Unbroken(rs)
    ensures Unbroken(Pruned(rs))
  {
    var d := RunLength(Window(rs)) - 1;
    forall i | 0 <= i < |rs| - d ensures rs[d..][i].number == rs[d..][0].number + i {
      assert rs[d..][i] == rs[d + i] && rs[d..][0] == rs[d];
    }
  }

  // The next number in order, or one recorded already.
  predicate InOrder(rs: seq<Rec>, r: Rec) {
    |rs| > 0 && rs[0].number <= r.number <= rs[|rs| - 1].number + 1
  }

  lemma InsertKeepsUnbroken(rs: seq<Rec>, r: Rec)
    requires Ascending(rs) && Unbroken(rs) && InOrder(rs, r)
    ensures Unbroken(Insert(rs, r))
  {
    var k := r.number - rs[0].number;
    if k < |rs| {
      SeekAt(rs, r.number, k);
      assert Insert(rs, r) == rs[k := r];
    } else {
      SeekEnd(rs, r.number);
      assert Insert(rs, r) == rs + [r];
    }
  }

  lemma SeekAt(rs: seq<Rec>, key: nat, k: nat)
    requires Ascending(rs) && k < |rs| && rs[k].number == key
    ensures Seek(rs, key) == k
  {
  }

  lemma SeekEnd(rs: seq<Rec>, key: nat)
    requires Ascending(rs) && |rs| > 0 && rs[|rs| - 1].number < key
    ensures Seek(rs, key) == |rs|
  {
  }

  // What happens to the visited namespace between two of its passes: a pass, then completions in order.
  ghost predicate Healthy(rs: seq<Rec>, more: seq<Rec>)
    decreases |more|
  {
    |more| == 0 || (InOrder(rs, more[0]) && Healthy(Insert(rs, more[0]), more[1..]))
  }

  lemma {:induction false} HealthyUnbroken(rs: seq<Rec>, more: seq<Rec>)
    requires Ascending(rs) && Unbroken(rs) && Healthy(rs, more)
    ensures Ascending(Recorded(rs, more)) && Unbroken(Recorded(rs, more))
    decreases |more|
  {
    if |more| > 0 {
      InsertBinds(rs, more[0]);
      InsertKeepsUnbroken(rs, more[0]);
      HealthyUnbroken(Insert(rs, more[0]), more[1..]);
    }
  }

  lemma TickKeepsUnbroken(rs: seq<Rec>, more: seq<Rec>)
    requires Ascending(rs) && Unbroken(rs) && Healthy(Pruned(rs), more)
    ensures Ascending(Recorded(Pruned(rs), more)) && Unbroken(Recorded(Pruned(rs), more))
  {
    PrunedKeepsRunEnd(rs);
    PruneKeepsUnbroken(rs);
    HealthyUnbroken(Pruned(rs), more);
  }

  // Between ticks w and w + 1 only the pass and then in-order completions, more(w), change namespace i.
  ghost predicate HealthyTick(stores: Stores, more: nat -> seq<Rec>, i: nat, w: nat) {
    Healthy(Pruned(stores(w, i)), more(w)) && stores(w + 1, i) == Recorded(Pruned(stores(w, i)), more(w))
  }

  ghost predicate HealthyTicks(stores: Stores, more: nat -> seq<Rec>, i: nat, t: nat, u: nat) {
    forall w: nat | t <= w < u :: HealthyTick(stores, more, i, w)
  }

  lemma {:induction false} StaysUnbroken(stores: Stores, more: nat -> seq<Rec>, i: nat, t: nat, u: nat, v: nat)
    requires t <= v <= u && Ascending(stores(t, i)) && Unbroken(stores(t, i)) && HealthyTicks(stores, more, i, t, u)
    ensures Ascending(stores(v, i)) && Unbroken(stores(v, i))
    decreases v - t
  {
    if t < v {
      StaysUnbroken(stores, more, i, t, u, v - 1);
      assert HealthyTick(stores, more, i, v - 1);
      TickKeepsUnbroken(stores(v - 1, i), more(v - 1));
    }
  }

  /** So a destination whose packets complete in order holds the Ethereum pruner for good: from an unbroken namespace,
      for as long as nothing but in-order completions and the passes themselves change it, no other namespace is
      visited. */
  lemma InOrderHoldsPruner(n: nat, reports: Reports, stores: Stores, more: nat -> seq<Rec>, t: nat, u: nat)
    requires n > 1 && t <= u && Reporting(reports, stores)
    requires var i := EthereumVisit(n, reports, t);
             Ascending(stores(t, i)) && Unbroken(stores(t, i)) && HealthyTicks(stores, more, i, t, u)
    ensures KeepsTo(n, reports, EthereumVisit(n, reports, t), t, u)
  {
    var i := EthereumVisit(n, reports, t);
    forall v: nat | t <= v < u ensures OneRun(stores(v, i)) {
      StaysUnbroken(stores, more, i, t, u, v);
      UnbrokenOneRun(stores(v, i));
    }
    EthereumKeepsToOneRun(n, reports, stores, t, u);
  }
}
