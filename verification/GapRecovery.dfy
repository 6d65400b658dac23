/** What a pruning pass and the refetch after it do as steps of the pipeline, and that every packet the pipeline accounts
    for can indeed be brought into a worker's hands. */
module GapRecovery {
  import opened BigEndian
  import opened Invariants
  import opened NothingLost
  import opened Pipeline
  import opened Prune
  import opened Records
  import opened Runs
  import opened Wrappers

  // Runs in which the attestor does not restart.
  predicate NoCrash(steps: seq<Step>) { forall step | step in steps :: !step.Crash? }

  // Runs in which only the pruner moves, and no call of its fails.
  predicate PrunerOnly(steps: seq<Step>) {
    forall step | step in steps :: step.Snapshot? || step.DeleteOne? || step.DeletesDone? || step.Refetch?
  }

  lemma Then(cfg: Config, s: State, a: seq<Step>, b: seq<Step>) returns (steps: seq<Step>)
    requires NoCrash(a) && NoCrash(b)
    ensures NoCrash(steps) && Exec(cfg, s, steps) == Exec(cfg, Exec(cfg, s, a), b)
    ensures PrunerOnly(a) && PrunerOnly(b) ==> PrunerOnly(steps)
  {
    steps := a + b;
    ExecAppend(cfg, s, a, b);
  }

  // ---------- A pass ----------

  function Deletes(keys: seq<nat>): (steps: seq<Step>)
    ensures |steps| == |keys| && NoCrash(steps) && PrunerOnly(steps)
  {
    if |keys| == 0 then [] else [DeleteOne(keys[0])] + Deletes(keys[1..])
  }

  predicate Distinct(keys: seq<nat>) { forall i, j | 0 <= i < j < |keys| :: keys[i] != keys[j] }

  lemma DeleteStep(cfg: Config, s: State, key: nat)
    requires s.pruner.Deleting? && key in s.pruner.pending
    ensures Next(cfg, s, DeleteOne(key)) ==
            s.(base := Remove(s.base, key), pruner := Deleting(s.pruner.pending - {key}, s.pruner.anchor, s.pruner.gap))
  {
  }

  lemma {:induction false} DeletesRun(cfg: Config, s: State, keys: seq<nat>)
    requires s.pruner.Deleting? && Distinct(keys) && forall k :: k in keys <==> k in s.pruner.pending
    ensures Exec(cfg, s, Deletes(keys)) ==
            s.(base := RemoveEach(s.base, keys), pruner := Deleting({}, s.pruner.anchor, s.pruner.gap))
    decreases |keys|
  {
    if |keys| == 0 {
      assert s.pruner.pending == {};
    } else {
      var t := s.(base := Remove(s.base, keys[0]),
                  pruner := Deleting(s.pruner.pending - {keys[0]}, s.pruner.anchor, s.pruner.gap));
      DeleteStep(cfg, s, keys[0]);
      assert keys == [keys[0]] + keys[1..];
      DeletesRun(cfg, t, keys[1..]);
      ExecFirst(cfg, s, DeleteOne(keys[0]), Deletes(keys[1..]));
    }
  }

  lemma SnapshotStep(cfg: Config, s: State)
    requires s.pruner.Idle? && |s.base| > 0
    ensures var kept := Pruned(s.base)[0].number;
            var pending := set r | r in s.base && r.number < kept :: r.number;
            Next(cfg, s, Snapshot) == s.(pruner := Deleting(pending, kept, FirstGap(s.base)))
  {
  }

  /** A pass as the pipeline takes it: a snapshot and then, in any order, a delete of each superseded key leave exactly
      what a pass leaves, and the gap it reports to be fetched. */
  lemma PassRun(cfg: Config, s: State, keys: seq<nat>)
    requires s.pruner.Idle? && Ascending(s.base) && |s.base| > 0
    requires Distinct(keys) && forall k :: k in keys <==> k in Keys(s.base) && k < Pruned(s.base)[0].number
    ensures Exec(cfg, s, [Snapshot] + Deletes(keys)) ==
            s.(base := Pruned(s.base), pruner := Deleting({}, Pruned(s.base)[0].number, FirstGap(s.base)))
  {
    var kept := Pruned(s.base)[0].number;
    var pending := set r | r in s.base && r.number < kept :: r.number;
    SnapshotStep(cfg, s);
    forall k ensures k in keys <==> k in pending {
      if k in Keys(s.base) && k < kept { var r :| r in s.base && r.number == k; }
    }
    DeletesRun(cfg, s.(pruner := Deleting(pending, kept, FirstGap(s.base))), keys);
    DeletesInAnyOrder(s.base, keys);
    ExecFirst(cfg, s, Snapshot, Deletes(keys));
  }

  // The superseded keys in some order.
  lemma {:induction false} Enumerate(keys: set<nat>) returns (order: seq<nat>)
    ensures Distinct(order) && forall k :: k in order <==> k in keys
    decreases |keys|
  {
    if keys == {} {
      order := [];
    } else {
      var k :| k in keys;
      var rest := Enumerate(keys - {k});
      order := [k] + rest;
    }
  }

  lemma SomePass(cfg: Config, s: State) returns (steps: seq<Step>)
    requires s.pruner.Idle? && Ascending(s.base) && |s.base| > 0
    ensures NoCrash(steps) && PrunerOnly(steps)
    ensures Exec(cfg, s, steps) ==
            s.(base := Pruned(s.base), pruner := Deleting({}, Pruned(s.base)[0].number, FirstGap(s.base)))
  {
    var keys := Enumerate(set k | k in Keys(s.base) && k < Pruned(s.base)[0].number);
    PassRun(cfg, s, keys);
    steps := [Snapshot] + Deletes(keys);
  }

  // ---------- The refetch ----------

  function Refetches(k: nat): (steps: seq<Step>)
    ensures |steps| == k && NoCrash(steps) && PrunerOnly(steps)
  {
    if k == 0 then [] else Refetches(k - 1) + [Refetch]
  }

  // The state after the packets up to upTo have been fetched again.
  function Refetched(s: State, from: nat, upTo: nat, end: nat): State
    requires 1 <= from <= upTo <= |s.chain.outbox| + 1
  {
    s.(inFlight := s.inFlight + Jobs(Slice(s.chain.outbox, from, upTo)), pruner := Refetching(upTo, end))
  }

  lemma RefetchStep(cfg: Config, s: State, from: nat, upTo: nat, end: nat)
    requires 1 <= from <= upTo < end <= |s.chain.outbox| + 1
    ensures Exec(cfg, Refetched(s, from, upTo, end), [Refetch]) == Refetched(s, from, upTo + 1, end)
  {
    ExecOne(cfg, Refetched(s, from, upTo, end), Refetch);
    SliceGrows(s.chain.outbox, from, upTo);
    OneMore(s.inFlight, Slice(s.chain.outbox, from, upTo), PacketAt(s.chain, upTo));
  }

  lemma NoneRefetched(s: State, from: nat, end: nat)
    requires s.pruner == Refetching(from, end) && 1 <= from <= |s.chain.outbox| + 1
    ensures Refetched(s, from, from, end) == s
  {
    assert Slice(s.chain.outbox, from, from) == [];
    assert s.inFlight + multiset{} == s.inFlight;
  }

  lemma NoRefetch(cfg: Config, s: State, from: nat, end: nat)
    requires s.pruner == Refetching(from, end) && 1 <= from <= |s.chain.outbox| + 1
    ensures Exec(cfg, s, Refetches(0)) == Refetched(s, from, from, end)
  {
    NoneRefetched(s, from, end);
  }

  lemma OneMoreRefetch(cfg: Config, s: State, from: nat, k: nat, end: nat)
    requires 1 <= from && from + k < end <= |s.chain.outbox| + 1
    requires Exec(cfg, s, Refetches(k)) == Refetched(s, from, from + k, end)
    ensures Exec(cfg, s, Refetches(k + 1)) == Refetched(s, from, from + k + 1, end)
  {
    hide Exec, Next, Refetched;
    assert Refetches(k + 1) == Refetches(k) + [Refetch];
    ExecAppend(cfg, s, Refetches(k), [Refetch]);
    RefetchStep(cfg, s, from, from + k, end);
  }

  lemma {:induction false} RefetchesRun(cfg: Config, s: State, from: nat, k: nat, end: nat)
    requires s.pruner == Refetching(from, end) && 1 <= from && from + k <= end <= |s.chain.outbox| + 1
    ensures Exec(cfg, s, Refetches(k)) == Refetched(s, from, from + k, end)
  {
    hide Exec, Next, Refetches, Refetched;
    if k == 0 {
      NoRefetch(cfg, s, from, end);
    } else {
      RefetchesRun(cfg, s, from, k - 1, end);
      OneMoreRefetch(cfg, s, from, k - 1, end);
    }
  }

  // Where the refetch of a gap begins.
  function From(cfg: Config, g: Gap): nat {
    if cfg.kind.Aleo? then g.below.number else g.below.number + 1
  }

  lemma DoneRun(cfg: Config, s: State, anchor: nat, g: Gap)
    requires s.pruner == Deleting({}, anchor, Some(g))
    ensures Exec(cfg, s, [DeletesDone]) == s.(pruner := Refetching(From(cfg, g), g.above.number))
  {
    ExecOne(cfg, s, DeletesDone);
  }

  lemma EndRun(cfg: Config, s: State, end: nat)
    requires s.pruner == Refetching(end, end)
    ensures Exec(cfg, s, [Refetch]) == s.(pruner := Idle)
  {
    ExecOne(cfg, s, Refetch);
  }

  lemma WholeGap(cfg: Config, s: State, anchor: nat, g: Gap)
    requires s.pruner == Deleting({}, anchor, Some(g))
    requires 1 <= g.below.number < g.above.number <= |s.chain.outbox|
    ensures var from, above := From(cfg, g), g.above.number;
            Exec(cfg, s, [DeletesDone] + Refetches(above - from)) == Refetched(s, from, above, above)
  {
    hide Exec, Next;
    var from, above := From(cfg, g), g.above.number;
    DoneRun(cfg, s, anchor, g);
    RefetchesRun(cfg, s.(pruner := Refetching(from, above)), from, above - from, above);
    ExecAppend(cfg, s, [DeletesDone], Refetches(above - from));
  }

  /** After the deletes the gap is fetched whole: on Aleo from the completed packet below it, on Ethereum from the one
      after, up to the one before its upper end, every packet once and nothing else. */
  lemma GapRefetched(cfg: Config, s: State, anchor: nat, g: Gap)
    requires s.pruner == Deleting({}, anchor, Some(g))
    requires 1 <= g.below.number < g.above.number <= |s.chain.outbox|
    ensures var from := if cfg.kind.Aleo? then g.below.number else g.below.number + 1;
            Exec(cfg, s, [DeletesDone] + Refetches(g.above.number - from)) ==
            s.(inFlight := s.inFlight + Jobs(Slice(s.chain.outbox, from, g.above.number)),
               pruner := Refetching(g.above.number, g.above.number))
  {
    hide Exec, Next;
    WholeGap(cfg, s, anchor, g);
  }

  // Then the pruner is idle again.
  lemma RefetchEnds(cfg: Config, s: State, anchor: nat, g: Gap) returns (steps: seq<Step>)
    requires s.pruner == Deleting({}, anchor, Some(g))
    requires 1 <= g.below.number < g.above.number <= |s.chain.outbox|
    ensures NoCrash(steps) && PrunerOnly(steps)
    ensures Exec(cfg, s, steps) ==
            s.(inFlight := s.inFlight + Jobs(Slice(s.chain.outbox, From(cfg, g), g.above.number)), pruner := Idle)
  {
    var from, above := From(cfg, g), g.above.number;
    WholeGap(cfg, s, anchor, g);
    EndRun(cfg, Refetched(s, from, above, above), above);
    steps := Then(cfg, s, [DeletesDone] + Refetches(above - from), [Refetch]);
  }

  // On Ethereum a failed call of the log filter ends the refetch.
  lemma EthereumRefetchStops(cfg: Config, s: State)
    requires cfg.kind.Ethereum? && s.pruner.Refetching?
    ensures Next(cfg, s, RefetchFails) == s.(pruner := Idle)
  {
  }

  // ---------- Any gap packet can be fetched ----------

  // How far the pruner is from packet n: the numbers between the first key and n, and those of them not recorded.
  ghost function Missing(base: seq<Rec>, n: nat): set<nat> {
    set k | 0 <= k < n && |base| > 0 && base[0].number < k && k !in Keys(base)
  }

  ghost function Distance(base: seq<Rec>, n: nat): nat {
    if |base| > 0 && base[0].number < n then n - base[0].number + |Missing(base, n)| else 0
  }

  lemma SubsetSmaller<T>(a: set<T>, b: set<T>)
    requires a <= b
    ensures |a| <= |b|
    ensures a != b ==> |a| < |b|
  {
    assert b == a + (b - a);
    assert |b| == |a| + |b - a|;
    if a != b {
      assert b - a != {};
    }
  }

  // A gap that is reported lies between packets of the chain.
  lemma GapOnChain(cfg: Config, s: State, g: Gap)
    requires Sound(cfg, s) && FirstGap(s.base) == Some(g)
    ensures g.below in s.base && g.above in s.base
    ensures 1 <= g.below.number && g.below.number + 1 < g.above.number <= |s.chain.outbox|
    ensures g == Gap(Pruned(s.base)[0], Pruned(s.base)[1])
  {
    FirstGapIsHole(s.base);
    assert g.below.number in Keys(s.base) && g.above.number in Keys(s.base);
    assert Mature(cfg, s.chain, g.below.number) && Mature(cfg, s.chain, g.above.number);
  }

  // After a pass, a gap packet is still one, above the new first key.
  lemma PassKeepsGap(base: seq<Rec>, n: nat)
    requires Ascending(base) && InGap(base, n)
    ensures Ascending(Pruned(base)) && InGap(Pruned(base), n)
    ensures base[0].number <= Pruned(base)[0].number
    ensures Missing(Pruned(base), n) <= Missing(base, n)
    ensures Keys(Pruned(base)) <= Keys(base)
  {
    PrunedKeepsRunEnd(base);
    var out := Pruned(base);
    assert out[0] in out;
    assert base[0].number <= out[0].number by { assert out[0] in base; KeyBounds(base); }
    assert n > out[0].number;
    forall k | k in Keys(out) ensures k in Keys(base) { var r :| r in out && r.number == k; assert r in base; }
    forall k | k in Keys(base) && out[0].number <= k ensures k in Keys(out) {
      var r :| r in base && r.number == k;
      assert r in out;
    }
  }

  // A pass that reports no gap, though there is one, has dropped keys.
  lemma BlindPassMoves(base: seq<Rec>, n: nat)
    requires Ascending(base) && InGap(base, n) && FirstGap(base) == None
    ensures Distance(Pruned(base), n) < Distance(base, n)
  {
    PassKeepsGap(base, n);
    NoGapIffOneRun(base);
    SubsetSmaller(Missing(Pruned(base), n), Missing(base, n));
    var m := Min(1000, |base|);
    if m == |base| { AllThere(base, n); }
    PassKeepsRunEndAt(base);
  }

  // A namespace of consecutive numbers has no gap.
  lemma AllThere(base: seq<Rec>, n: nat)
    requires |base| > 0 && Consecutive(base, |base|)
    ensures !InGap(base, n)
  {
    if base[0].number < n < base[|base| - 1].number {
      var r := base[n - base[0].number];
      assert r in base && r.number == n;
    }
  }

  lemma PassKeepsRunEndAt(base: seq<Rec>)
    requires |base| > 1000 && Consecutive(base, 1000)
    ensures Pruned(base)[0].number == base[0].number + 999
  {
    var w := Window(base);
    assert IsRun(w, 1000) by {
      forall i | 0 <= i < 1000 ensures w[i].number == w[0].number + i { assert w[i] == base[i]; }
    }
    RunIsUnique(w, 1000, RunLength(w));
  }

  // ---------- Completing what was fetched ----------

  // Packets from one number up to another are in memory.
  ghost predicate AllHeld(s: State, from: nat, upTo: nat) {
    forall m: nat | from <= m < upTo :: Held(s, m)
  }

  function Completing(s: State, m: nat): Step {
    if OnChain(s.chain, m) then Complete(Job(PacketAt(s.chain, m), false)) else Feed
  }

  lemma CompletedState(cfg: Config, s: State, m: nat)
    requires Held(s, m)
    ensures var t := Next(cfg, s, Completing(s, m));
            && t.chain == s.chain && t.pruner == s.pruner && t.base == Insert(s.base, BaseRecord(cfg, PacketAt(s.chain, m)))
            && t.inFlight == s.inFlight - multiset{Job(PacketAt(s.chain, m), false)}
  {
  }

  lemma OthersHeld(s: State, t: State, m: nat, upTo: nat)
    requires AllHeld(s, m, upTo) && t.chain == s.chain && OnChain(s.chain, m)
    requires t.inFlight == s.inFlight - multiset{Job(PacketAt(s.chain, m), false)}
    ensures AllHeld(t, m + 1, upTo)
  {
    forall k: nat | m < k < upTo ensures Held(t, k) {
      assert Held(s, k);
      assert PacketAt(s.chain, k) != PacketAt(s.chain, m);
    }
  }

  lemma CompleteOne(cfg: Config, s: State, m: nat, upTo: nat)
    requires Sound(cfg, s) && m < upTo && AllHeld(s, m, upTo)
    ensures var t := Exec(cfg, s, [Completing(s, m)]);
            && Sound(cfg, t) && t.chain == s.chain && t.pruner == s.pruner && AllHeld(t, m + 1, upTo)
            && Keys(t.base) == Keys(s.base) + {m}
  {
    assert Held(s, m);
    CompletedState(cfg, s, m);
    StepSound(cfg, s, Completing(s, m));
    ExecOne(cfg, s, Completing(s, m));
    hide Next, Exec, Sound;
    InsertKeys(s.base, BaseRecord(cfg, PacketAt(s.chain, m)));
    OthersHeld(s, Exec(cfg, s, [Completing(s, m)]), m, upTo);
  }

  function Span(from: nat, upTo: nat): set<nat>
    decreases upTo - from
  {
    if from >= upTo then {} else {from} + Span(from + 1, upTo)
  }

  lemma {:induction false} SpanMembers(from: nat, upTo: nat)
    ensures forall k :: k in Span(from, upTo) <==> from <= k < upTo
    decreases upTo - from
  {
    if from < upTo { SpanMembers(from + 1, upTo); }
  }

  // t is s with the numbers from one up to another recorded.
  ghost predicate Recorded(s: State, t: State, from: nat, upTo: nat) {
    t.chain == s.chain && t.pruner == s.pruner && Keys(t.base) == Keys(s.base) + Span(from, upTo)
  }

  lemma RecordedNone(s: State, at: nat)
    ensures Recorded(s, s, at, at)
  {
  }

  lemma RecordedStep(s: State, t: State, u: State, from: nat, upTo: nat)
    requires from < upTo && Recorded(t, u, from + 1, upTo)
    requires t.chain == s.chain && t.pruner == s.pruner && Keys(t.base) == Keys(s.base) + {from}
    ensures Recorded(s, u, from, upTo)
  {
    assert Keys(s.base) + {from} + Span(from + 1, upTo) == Keys(s.base) + Span(from, upTo);
  }

  // One run that completes them all, in order.
  lemma {:induction false} CompleteRange(cfg: Config, s: State, from: nat, upTo: nat) returns (steps: seq<Step>)
    requires Sound(cfg, s) && from <= upTo && AllHeld(s, from, upTo)
    ensures NoCrash(steps) && Recorded(s, Exec(cfg, s, steps), from, upTo)
    decreases upTo - from
  {
    if from == upTo {
      steps := [];
      RecordedNone(s, from);
    } else {
      var first := [Completing(s, from)];
      assert NoCrash(first);
      hide Exec, Next, Sound, AllHeld, Completing, Keys, Recorded;
      CompleteOne(cfg, s, from, upTo);
      var t := Exec(cfg, s, first);
      var rest := CompleteRange(cfg, t, from + 1, upTo);
      RecordedStep(s, t, Exec(cfg, t, rest), from, upTo);
      steps := Then(cfg, s, first, rest);
    }
  }

  lemma SliceHeld(s: State, before: multiset<Job>, from: nat, upTo: nat)
    requires 1 <= from <= upTo <= |s.chain.outbox| + 1
    requires s.inFlight == before + Jobs(Slice(s.chain.outbox, from, upTo))
    ensures AllHeld(s, from, upTo)
  {
    var pkts := Slice(s.chain.outbox, from, upTo);
    JobsMembers(pkts);
    forall m: nat | from <= m < upTo ensures Held(s, m) { assert pkts[m - from] == PacketAt(s.chain, m); }
  }

  // The state after a pass that reports a gap, its deletes and its refetch.
  function Fetched(cfg: Config, s: State, g: Gap, base: seq<Rec>): State
    requires 1 <= g.below.number < g.above.number <= |s.chain.outbox|
  {
    s.(base := base, inFlight := s.inFlight + Jobs(Slice(s.chain.outbox, From(cfg, g), g.above.number)), pruner := Idle)
  }

  lemma FetchGap(cfg: Config, s: State, g: Gap) returns (steps: seq<Step>)
    requires Sound(cfg, s) && s.pruner.Idle? && FirstGap(s.base) == Some(g)
    ensures 1 <= g.below.number < g.above.number <= |s.chain.outbox|
    ensures NoCrash(steps) && PrunerOnly(steps) && Exec(cfg, s, steps) == Fetched(cfg, s, g, Pruned(s.base))
  {
    hide Exec, Next;
    GapOnChain(cfg, s, g);
    var pass := SomePass(cfg, s);
    var refetch := RefetchEnds(cfg, Exec(cfg, s, pass), Pruned(s.base)[0].number, g);
    steps := Then(cfg, s, pass, refetch);
  }

  lemma FetchedHolds(cfg: Config, s: State, g: Gap, base: seq<Rec>)
    requires 1 <= g.below.number < g.above.number <= |s.chain.outbox|
    ensures AllHeld(Fetched(cfg, s, g, base), g.below.number + 1, g.above.number)
  {
    SliceHeld(Fetched(cfg, s, g, base), s.inFlight, From(cfg, g), g.above.number);
  }

  /** Every packet in the gap a pass reports is in a worker's hands after a snapshot, its deletes and the refetch, whatever
      the rest of the attestor holds. */
  lemma FirstGapHeld(cfg: Config, s: State, g: Gap) returns (steps: seq<Step>)
    requires Sound(cfg, s) && s.pruner.Idle? && FirstGap(s.base) == Some(g)
    ensures NoCrash(steps) && PrunerOnly(steps)
    ensures forall n | g.below.number < n < g.above.number :: Held(Exec(cfg, s, steps), n)
  {
    hide Exec, Next;
    steps := FetchGap(cfg, s, g);
    FetchedHolds(cfg, s, g, Pruned(s.base));
  }

  // Fetching a gap below packet n, and completing it, brings the pruner nearer.
  lemma FillGap(cfg: Config, s: State, g: Gap, n: nat) returns (steps: seq<Step>)
    requires Sound(cfg, s) && s.pruner.Idle? && InGap(s.base, n) && FirstGap(s.base) == Some(g) && g.above.number < n
    ensures NoCrash(steps) && Sound(cfg, Exec(cfg, s, steps))
    ensures var t := Exec(cfg, s, steps);
            t.pruner.Idle? && InGap(t.base, n) && Distance(t.base, n) < Distance(s.base, n)
  {
    hide Exec, Next;
    var fetch := FetchGap(cfg, s, g);
    var t := Exec(cfg, s, fetch);
    ExecSound(cfg, s, fetch);
    FetchedHolds(cfg, s, g, Pruned(s.base));
    var fill := CompleteRange(cfg, t, g.below.number + 1, g.above.number);
    steps := Then(cfg, s, fetch, fill);
    ExecSound(cfg, s, steps);
    SpanMembers(g.below.number + 1, g.above.number);
    FilledNearer(cfg, s, g, n, Exec(cfg, s, steps).base);
  }

  lemma FilledNearer(cfg: Config, s: State, g: Gap, n: nat, base: seq<Rec>)
    requires Sound(cfg, s) && InGap(s.base, n) && FirstGap(s.base) == Some(g) && g.above.number < n
    requires Ascending(base)
    requires forall k :: k in Keys(base) <==> k in Keys(Pruned(s.base)) || g.below.number + 1 <= k < g.above.number
    ensures InGap(base, n) && Distance(base, n) < Distance(s.base, n)
  {
    GapOnChain(cfg, s, g);
    PassKeepsGap(s.base, n);
    SameEnds(Pruned(s.base), base, g);
    var m := g.below.number + 1;
    assert m !in Keys(s.base) by { FirstGapIsHole(s.base); NotBetween(s.base, g, m); }
    assert m in Missing(s.base, n) && m !in Missing(base, n);
    assert Missing(base, n) <= Missing(s.base, n);
    SubsetSmaller(Missing(base, n), Missing(s.base, n));
  }

  lemma NotBetween(base: seq<Rec>, g: Gap, m: nat)
    requires forall r | r in base :: r.number <= g.below.number || g.above.number <= r.number
    requires g.below.number < m < g.above.number
    ensures m !in Keys(base)
  {
  }

  // Filling the gap after the first key changes neither end.
  lemma SameEnds(base: seq<Rec>, filled: seq<Rec>, g: Gap)
    requires Ascending(base) && Ascending(filled) && |base| > 1 && g == Gap(base[0], base[1])
    requires forall k :: k in Keys(filled) <==> k in Keys(base) || g.below.number + 1 <= k < g.above.number
    ensures |filled| > 0 && filled[0].number == base[0].number && filled[|filled| - 1].number == base[|base| - 1].number
  {
    KeyBounds(base);
    assert base[1] in base && base[1].number in Keys(base);
    EndsAreExtremes(filled, base[0].number, base[|base| - 1].number);
  }

  // A pass that reports no gap at all.
  lemma BlindPass(cfg: Config, s: State, n: nat) returns (steps: seq<Step>)
    requires Sound(cfg, s) && s.pruner.Idle? && InGap(s.base, n) && FirstGap(s.base) == None
    ensures NoCrash(steps) && Sound(cfg, Exec(cfg, s, steps))
    ensures var t := Exec(cfg, s, steps);
            t.pruner.Idle? && InGap(t.base, n) && Distance(t.base, n) < Distance(s.base, n)
  {
    hide Exec, Next;
    var pass := SomePass(cfg, s);
    NothingToFetch(cfg, Exec(cfg, s, pass), Pruned(s.base)[0].number);
    steps := Then(cfg, s, pass, [DeletesDone]);
    ExecSound(cfg, s, steps);
    PassKeepsGap(s.base, n);
    BlindPassMoves(s.base, n);
  }

  lemma NothingToFetch(cfg: Config, s: State, anchor: nat)
    requires s.pruner == Deleting({}, anchor, None)
    ensures Exec(cfg, s, [DeletesDone]) == s.(pruner := Idle)
  {
    ExecOne(cfg, s, DeletesDone);
  }

  /** Any packet missing between two recorded completions can be brought into a worker's hands without a restart, however
      many gaps and however many thousands of keys lie before it. */
  lemma {:induction false} GapPacketHeld(cfg: Config, s: State, n: nat) returns (steps: seq<Step>)
    requires Sound(cfg, s) && s.pruner.Idle? && InGap(s.base, n)
    ensures NoCrash(steps) && Held(Exec(cfg, s, steps), n)
    decreases Distance(s.base, n)
  {
    hide Exec, Next, Sound;
    match FirstGap(s.base) {
      case None =>
        var pass := BlindPass(cfg, s, n);
        var rest := GapPacketHeld(cfg, Exec(cfg, s, pass), n);
        steps := Then(cfg, s, pass, rest);
      case Some(g) =>
        if n < g.above.number {
          GapAbove(cfg, s, g, n);
          steps := FirstGapHeld(cfg, s, g);
        } else {
          GapAbove(cfg, s, g, n);
          var fill := FillGap(cfg, s, g, n);
          var rest := GapPacketHeld(cfg, Exec(cfg, s, fill), n);
          steps := Then(cfg, s, fill, rest);
        }
    }
  }

  // A gap packet lies in the reported gap or above it.
  lemma GapAbove(cfg: Config, s: State, g: Gap, n: nat)
    requires Sound(cfg, s) && InGap(s.base, n) && FirstGap(s.base) == Some(g)
    ensures g.below.number < n && n != g.above.number
  {
    GapOnChain(cfg, s, g);
    PassKeepsGap(s.base, n);
    assert g.above in s.base && g.above.number in Keys(s.base);
  }

  // ---------- Any accounted packet can be brought into a worker's hands ----------

  lemma GiveUpOne(cfg: Config, s: State, key: nat)
    requires s.pruner.Deleting? && key in s.pruner.pending
    ensures Exec(cfg, s, [DeleteFails(key)]) ==
            s.(pruner := Deleting(s.pruner.pending - {key}, s.pruner.anchor, s.pruner.gap))
  {
    ExecOne(cfg, s, DeleteFails(key));
  }

  lemma {:induction false} GiveUpDeletes(cfg: Config, s: State) returns (steps: seq<Step>)
    requires s.pruner.Deleting?
    ensures NoCrash(steps)
    ensures Exec(cfg, s, steps) == s.(pruner := Deleting({}, s.pruner.anchor, s.pruner.gap))
    decreases s.pruner.pending
  {
    if s.pruner.pending == {} {
      steps := [];
    } else {
      hide Exec, Next;
      var key :| key in s.pruner.pending;
      GiveUpOne(cfg, s, key);
      var rest := GiveUpDeletes(cfg, Exec(cfg, s, [DeleteFails(key)]));
      steps := Then(cfg, s, [DeleteFails(key)], rest);
    }
  }

  lemma GiveUpRefetchOne(cfg: Config, s: State)
    requires s.pruner.Refetching?
    ensures Exec(cfg, s, [RefetchFails]) ==
            s.(pruner := if cfg.kind.Aleo? && s.pruner.at < s.pruner.end then Refetching(s.pruner.at + 1, s.pruner.end)
                         else Idle)
  {
    ExecOne(cfg, s, RefetchFails);
  }

  lemma {:induction false} GiveUpRefetch(cfg: Config, s: State) returns (steps: seq<Step>)
    requires s.pruner.Refetching?
    ensures NoCrash(steps) && Exec(cfg, s, steps) == s.(pruner := Idle)
    decreases if s.pruner.at < s.pruner.end then s.pruner.end - s.pruner.at else 0
  {
    hide Exec, Next;
    GiveUpRefetchOne(cfg, s);
    if cfg.kind.Aleo? && s.pruner.at < s.pruner.end {
      var rest := GiveUpRefetch(cfg, Exec(cfg, s, [RefetchFails]));
      steps := Then(cfg, s, [RefetchFails], rest);
    } else {
      steps := [RefetchFails];
    }
  }

  lemma DeletesGivenUp(cfg: Config, s: State)
    requires s.pruner.Deleting? && s.pruner.pending == {}
    ensures exists p: Pruner ::
              !p.Deleting? && Exec(cfg, s, [DeletesDone]) == s.(pruner := p)
  {
    ExecOne(cfg, s, DeletesDone);
  }

  // The pruner comes to rest, at worst by giving up what it is at.
  lemma Settle(cfg: Config, s: State) returns (steps: seq<Step>)
    ensures NoCrash(steps) && Exec(cfg, s, steps) == s.(pruner := Idle)
  {
    match s.pruner {
      case Idle => steps := [];
      case Refetching(_, _) => steps := GiveUpRefetch(cfg, s);
      case Deleting(_, _, _) =>
        hide Exec, Next;
        var deletes := GiveUpDeletes(cfg, s);
        var t := Exec(cfg, s, deletes);
        DeletesGivenUp(cfg, t);
        var both := Then(cfg, s, deletes, [DeletesDone]);
        var u := Exec(cfg, s, both);
        if u.pruner.Idle? {
          steps := both;
        } else {
          var rest := GiveUpRefetch(cfg, u);
          steps := Then(cfg, s, both, rest);
        }
    }
  }

  lemma RetryStep(cfg: Config, s: State, n: nat)
    requires Queued(s, n)
    ensures var t := Exec(cfg, s, [Retry]);
            t.chain == s.chain && (Held(t, n) || (Queued(t, n) && |t.retry| < |s.retry|))
  {
    var k := if 10 < |s.retry| then 10 else |s.retry|;
    ExecOne(cfg, s, Retry);
    JobsMembers(s.retry[..k]);
    assert s.retry == s.retry[..k] + s.retry[k..];
  }

  lemma {:induction false} QueuedHeld(cfg: Config, s: State, n: nat) returns (steps: seq<Step>)
    requires Queued(s, n)
    ensures NoCrash(steps) && Held(Exec(cfg, s, steps), n)
    decreases |s.retry|
  {
    hide Exec, Next;
    RetryStep(cfg, s, n);
    var t := Exec(cfg, s, [Retry]);
    if Held(t, n) {
      steps := [Retry];
    } else {
      var rest := QueuedHeld(cfg, t, n);
      steps := Then(cfg, s, [Retry], rest);
    }
  }

  // No packets, the blocks that make all of them final, and a reading.
  lemma AllMature(cfg: Config, s: State)
    requires ChainOk(s.chain)
    ensures var t := Grown(cfg, s, 0);
            && t.chain.outbox == s.chain.outbox && t.cursor == s.cursor
            && forall m: nat | OnChain(t.chain, m) :: PacketAt(t.chain, m).height <= t.matured
  {
    var t := Grown(cfg, s, 0);
    assert t.chain.outbox == s.chain.outbox;
    forall m: nat | OnChain(t.chain, m) ensures PacketAt(t.chain, m).height <= t.matured {
      assert s.chain.outbox[m - 1] in s.chain.outbox;
    }
  }

  lemma ToFeedHeld(cfg: Config, s: State, n: nat) returns (steps: seq<Step>)
    requires Sound(cfg, s) && OnChain(s.chain, n) && ToFeed(cfg, s.chain, s.cursor, n)
    requires cfg.kind.Ethereum? ==> s.chain.height + 1 < U64_LIMIT
    ensures NoCrash(steps) && Held(Exec(cfg, s, steps), n)
  {
    hide Exec, Next;
    var grow := Grow(cfg, s, 0);
    var t := Grown(cfg, s, 0);
    AllMature(cfg, s);
    var feed := FeedUpTo(cfg, t, n);
    steps := Then(cfg, s, grow, feed);
  }

  lemma InGapHeld(cfg: Config, s: State, n: nat) returns (steps: seq<Step>)
    requires Sound(cfg, s) && InGap(s.base, n)
    ensures NoCrash(steps) && Held(Exec(cfg, s, steps), n)
  {
    hide Exec, Next, Sound;
    var settle := Settle(cfg, s);
    ExecSound(cfg, s, settle);
    var rest := GapPacketHeld(cfg, Exec(cfg, s, settle), n);
    steps := Then(cfg, s, settle, rest);
  }

  /** What is accounted for is not just said to be: in every reachable state, each incomplete packet of the chain that is
      accounted for, and does not merely share the last record's block, can be brought into a worker's hands by some run
      without a restart. */
  lemma AccountedCanBeHeld(cfg: Config, c: Chain, before: seq<Step>, s: State, n: nat) returns (steps: seq<Step>)
    requires Reaches(cfg, c, before, s) && OnChain(s.chain, n) && Accounted(cfg, s, n)
    requires n !in s.completed && !SharesLastBlock(cfg, s.chain, s.base, n)
    requires cfg.kind.Ethereum? ==> s.chain.height + 1 < U64_LIMIT
    ensures NoCrash(steps) && Held(Exec(cfg, s, steps), n)
  {
    ReachedKeeps(cfg, c, before, s);
    hide Sound;
    if Held(s, n) {
      steps := [];
    } else if Queued(s, n) {
      steps := QueuedHeld(cfg, s, n);
    } else if InGap(s.base, n) {
      steps := InGapHeld(cfg, s, n);
    } else {
      steps := ToFeedHeld(cfg, s, n);
    }
  }
}
