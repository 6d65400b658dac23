/** What every step of the pipeline keeps true of the stores, the pruner and the packets in memory. */
module Invariants {
  import opened Pipeline
  import opened Prune
  import opened Records

  ghost predicate ChainOk(c: Chain) {
    && (forall i, j | 0 <= i < j < |c.outbox| :: c.outbox[i] <= c.outbox[j])
    && (forall h | h in c.outbox :: h <= c.height)
  }

  // The record is that of a packet on the source chain.
  ghost predicate Genuine(c: Chain, r: Rec) {
    OnChain(c, r.number) && PacketAt(c, r.number) == r
  }

  // The packet is on the chain and enough blocks have followed it for it to be final.
  ghost predicate Mature(cfg: Config, c: Chain, n: nat) {
    OnChain(c, n) && PacketAt(c, n).height + cfg.waitHeight <= c.height
  }

  ghost predicate JobOk(cfg: Config, c: Chain, j: Job) {
    Genuine(c, j.pkt) && (j.missed || Mature(cfg, c, j.pkt.number))
  }

  ghost predicate JobsOk(cfg: Config, c: Chain, jobs: multiset<Job>) {
    forall j | j in jobs :: JobOk(cfg, c, j)
  }

  ghost predicate RetryOk(cfg: Config, c: Chain, retry: seq<Rec>) {
    Ascending(retry) && forall r | r in retry :: JobOk(cfg, c, Job(r, false))
  }

  ghost predicate CompletedOk(cfg: Config, c: Chain, completed: set<nat>) {
    forall n | n in completed :: Mature(cfg, c, n)
  }

  ghost predicate BaseOk(cfg: Config, c: Chain, base: seq<Rec>, recorded: set<nat>) {
    && Ascending(base)
    && Keys(base) <= recorded
    && (|base| == 0 ==> recorded == {})
    && (|base| > 0 ==> forall n | n in recorded :: n <= base[|base| - 1].number)
    && (cfg.kind.Ethereum? ==> forall r | r in base :: Genuine(c, r))
  }

  // Everything from a key awaiting deletion up to the run's kept key is complete, and the kept key stays.
  ghost predicate PrunerOk(pruner: Pruner, keys: set<nat>, completed: set<nat>) {
    match pruner
    case Idle => true
    case Deleting(pending, anchor, gap) =>
      && anchor in keys
      && (forall k | k in pending :: k < anchor)
      && (forall k, n | k in pending && k <= n <= anchor :: n in completed)
      && (gap.Some? ==> gap.value.below.number in completed && gap.value.above.number in completed)
    case Refetching(at, end) => at >= 1 && end in completed
  }

  ghost predicate CursorOk(cfg: Config, c: Chain, matured: int, cursor: nat) {
    && cfg.start >= 1
    && (matured < 0 || matured + cfg.waitHeight <= c.height)
    && match cfg.kind
       case Aleo => cfg.start <= cursor <= Max(cfg.start, |c.outbox| + 1)
       case Ethereum => cfg.waitHeight <= c.height && cfg.startHeight <= cursor <= Max(cfg.startHeight, c.height + 1)
  }

  ghost predicate Sound(cfg: Config, s: State) {
    && ChainOk(s.chain)
    && JobsOk(cfg, s.chain, s.inFlight)
    && RetryOk(cfg, s.chain, s.retry)
    && CompletedOk(cfg, s.chain, s.completed)
    && s.recorded <= s.completed
    && BaseOk(cfg, s.chain, s.base, s.recorded)
    && PrunerOk(s.pruner, Keys(s.base), s.completed)
    && CursorOk(cfg, s.chain, s.matured, s.cursor)
  }

  // ---------- Helpers about batches ----------

  lemma {:induction false} JobsMembers(pkts: seq<Rec>)
    ensures forall j :: j in Jobs(pkts) <==> !j.missed && j.pkt in pkts
  {
    if |pkts| > 0 {
      JobsMembers(pkts[..|pkts| - 1]);
      assert pkts == pkts[..|pkts| - 1] + [pkts[|pkts| - 1]];
    }
  }

  lemma {:induction false} PacketsInMembers(outbox: seq<nat>, from: nat, to: int)
    ensures forall r :: r in PacketsIn(outbox, from, to) <==>
                        1 <= r.number <= |outbox| && r.height == outbox[r.number - 1] && from <= r.height <= to
  {
    if |outbox| > 0 {
      PacketsInMembers(outbox[..|outbox| - 1], from, to);
    }
  }

  // The last key after an insertion is the larger of the old last key and the new key; the first, the smaller.
  lemma InsertEnds(rs: seq<Rec>, r: Rec)
    requires Ascending(rs)
    ensures var out := Insert(rs, r);
            && |out| > 0
            && out[|out| - 1].number == (if |rs| == 0 then r.number else Max(rs[|rs| - 1].number, r.number))
            && out[0].number == (if |rs| == 0 then r.number else Min(rs[0].number, r.number))
  {
    var i := Seek(rs, r.number);
    var k := i + if Has(rs, r.number) then 1 else 0;
    var low, high := rs[..i], rs[k..];
    assert Insert(rs, r) == low + [r] + high;
    if k < |rs| {
      assert r.number < rs[|rs| - 1].number;
    } else if |rs| > 0 {
      assert rs[|rs| - 1].number <= r.number;
    }
  }

  // ---------- Every step keeps the invariant ----------

  lemma InitSound(cfg: Config, c: Chain)
    requires cfg.start >= 1 && ChainOk(c)
    requires cfg.kind.Ethereum? ==> cfg.waitHeight <= c.height
    ensures Sound(cfg, Init(cfg, c))
  {
  }

  // The packets of scanned blocks are final when the last scanned block is.
  lemma ScanOk(cfg: Config, c: Chain, from: nat, to: int)
    requires to < 0 || to + cfg.waitHeight <= c.height
    ensures JobsOk(cfg, c, Jobs(PacketsIn(c.outbox, from, to)))
  {
    PacketsInMembers(c.outbox, from, to);
    JobsMembers(PacketsIn(c.outbox, from, to));
  }

  lemma PullSound(cfg: Config, s: State)
    requires cfg.kind.Aleo? && Sound(cfg, s)
    ensures Sound(cfg, Feeding(cfg, s))
  {
    if OnChain(s.chain, s.cursor) && PacketAt(s.chain, s.cursor).height <= s.matured {
      assert JobOk(cfg, s.chain, Job(PacketAt(s.chain, s.cursor), false));
    }
  }

  lemma ScanSound(cfg: Config, s: State)
    requires cfg.kind.Ethereum? && Sound(cfg, s)
    ensures Sound(cfg, Feeding(cfg, s))
  {
    if s.cursor <= s.matured {
      ScanOk(cfg, s.chain, s.cursor, if s.cursor + SCAN_SPAN < s.matured then s.cursor + SCAN_SPAN else s.matured);
    }
  }

  lemma FeedSound(cfg: Config, s: State)
    requires Sound(cfg, s)
    ensures Sound(cfg, Feeding(cfg, s))
  {
    match cfg.kind
    case Aleo => PullSound(cfg, s);
    case Ethereum => ScanSound(cfg, s);
  }

  lemma BaseInsertOk(cfg: Config, c: Chain, base: seq<Rec>, recorded: set<nat>, pkt: Rec)
    requires BaseOk(cfg, c, base, recorded) && Genuine(c, pkt)
    ensures BaseOk(cfg, c, Insert(base, BaseRecord(cfg, pkt)), recorded + {pkt.number})
  {
    var r := BaseRecord(cfg, pkt);
    InsertBinds(base, r);
    InsertKeys(base, r);
    InsertEnds(base, r);
  }

  lemma CompleteSound(cfg: Config, s: State, job: Job)
    requires Sound(cfg, s) && job in s.inFlight && !job.missed
    ensures Sound(cfg, Next(cfg, s, Complete(job)))
  {
    assert JobOk(cfg, s.chain, job);
    BaseInsertOk(cfg, s.chain, s.base, s.recorded, job.pkt);
    InsertKeys(s.base, BaseRecord(cfg, job.pkt));
  }

  lemma RetrySound(cfg: Config, s: State)
    requires Sound(cfg, s)
    ensures Sound(cfg, Next(cfg, s, Retry))
  {
    var k := Min(RETRY_BATCH, |s.retry|);
    JobsMembers(s.retry[..k]);
    SplitAt(s.retry, k, k);
    assert JobsOk(cfg, s.chain, Jobs(s.retry[..k])) by {
      forall j | j in Jobs(s.retry[..k]) ensures JobOk(cfg, s.chain, j) {
        assert j == Job(j.pkt, false) && j.pkt in s.retry;
      }
    }
  }

  lemma FailSound(cfg: Config, s: State, job: Job)
    requires Sound(cfg, s) && job in s.inFlight && !job.missed
    ensures Sound(cfg, Next(cfg, s, Fail(job)))
  {
    InsertBinds(s.retry, job.pkt);
    assert job == Job(job.pkt, false);
  }

  lemma NewBlockSound(cfg: Config, s: State, packets: nat)
    requires Sound(cfg, s)
    ensures Sound(cfg, Next(cfg, s, NewBlock(packets)))
  {
    var c, d := s.chain, Next(cfg, s, NewBlock(packets)).chain;
    assert forall n | OnChain(c, n) :: OnChain(d, n) && PacketAt(d, n) == PacketAt(c, n);
    assert ChainOk(d) by {
      assert forall i | 0 <= i < |c.outbox| :: c.outbox[i] in c.outbox;
    }
  }

  lemma SnapshotSound(cfg: Config, s: State)
    requires Sound(cfg, s)
    ensures Sound(cfg, Next(cfg, s, Snapshot))
  {
    if |s.base| > 0 {
      PrunedKeepsRunEnd(s.base);
      FirstGapIsHole(s.base);
      var kept := Pruned(s.base)[0];
      assert kept in s.base;
      forall k | k in Keys(s.base) ensures s.base[0].number <= k {
        var r :| r in s.base && r.number == k;
      }
    }
  }

  lemma DeleteSound(cfg: Config, s: State, key: nat)
    requires Sound(cfg, s) && s.pruner.Deleting? && key in s.pruner.pending
    ensures Sound(cfg, Next(cfg, s, DeleteOne(key)))
  {
    RemoveKeys(s.base, key);
    BaseRemoveOk(cfg, s.chain, s.base, s.recorded, key, s.pruner.anchor);
  }

  lemma BaseRemoveOk(cfg: Config, c: Chain, base: seq<Rec>, recorded: set<nat>, key: nat, anchor: nat)
    requires BaseOk(cfg, c, base, recorded) && key < anchor && anchor in Keys(base)
    ensures BaseOk(cfg, c, Remove(base, key), recorded)
  {
    RemoveKeys(base, key);
    RemoveUnbinds(base, key);
    RemoveLow(base, key, anchor);
  }

  lemma LastOfTail(low: seq<Rec>, rs: seq<Rec>, k: nat)
    requires k < |rs|
    ensures var out := low + rs[k..]; |out| > 0 && out[|out| - 1] == rs[|rs| - 1]
  {
  }

  lemma RemoveKeepsLast(rs: seq<Rec>, key: nat, x: Rec)
    requires Ascending(rs) && x in rs && key < x.number
    ensures var out := Remove(rs, key); |out| > 0 && out[|out| - 1] == rs[|rs| - 1]
  {
    var j :| 0 <= j < |rs| && rs[j] == x;
    var k := Seek(rs, key) + if Has(rs, key) then 1 else 0;
    assert k <= j;
    LastOfTail(Low(rs, key), rs, k);
  }

  // Removing a key below another one leaves the last record in place.
  lemma RemoveLow(rs: seq<Rec>, key: nat, above: nat)
    requires Ascending(rs) && key < above && above in Keys(rs)
    ensures var out := Remove(rs, key); |out| > 0 && out[|out| - 1] == rs[|rs| - 1]
  {
    var x :| x in rs && x.number == above;
    RemoveKeepsLast(rs, key, x);
  }

  lemma CrashSound(cfg: Config, s: State, otherHeight: nat)
    requires Sound(cfg, s)
    ensures Sound(cfg, Next(cfg, s, Crash(otherHeight)))
  {
    if |s.base| > 0 {
      var last := s.base[|s.base| - 1];
      assert last in s.base && last.number in Keys(s.base) && last.number in s.completed;
    }
  }

  lemma RefetchSound(cfg: Config, s: State)
    requires Sound(cfg, s)
    ensures Sound(cfg, Next(cfg, s, Refetch))
  {
    if s.pruner.Refetching? && s.pruner.at < s.pruner.end {
      // A packet below a final one is final.
      assert Mature(cfg, s.chain, s.pruner.end);
      assert JobOk(cfg, s.chain, Job(PacketAt(s.chain, s.pruner.at), false));
    }
  }

  lemma MemorySound(cfg: Config, s: State, step: Step)
    requires Sound(cfg, s)
    requires step.FeedMissed? || step.CompleteUnrecorded? || ((step.Complete? || step.Fail?) && step.job.missed)
    ensures Sound(cfg, Next(cfg, s, step))
  {
    if step.FeedMissed? && OnChain(s.chain, step.number) {
      assert JobOk(cfg, s.chain, Job(PacketAt(s.chain, step.number), true));
    } else if step.CompleteUnrecorded? && step.job in s.inFlight {
      assert JobOk(cfg, s.chain, step.job);
    }
  }

  lemma PrunerSound(cfg: Config, s: State, step: Step)
    requires Sound(cfg, s)
    requires step.DeleteFails? || step.DeletesDone? || step.RefetchFails? || step.ReadHeight?
    ensures Sound(cfg, Next(cfg, s, step))
  {
  }

  /** Every step keeps the invariant. */
  lemma StepSound(cfg: Config, s: State, step: Step)
    requires Sound(cfg, s)
    ensures Sound(cfg, Next(cfg, s, step))
  {
    match step
    case NewBlock(packets) => NewBlockSound(cfg, s, packets);
    case Feed => FeedSound(cfg, s);
    case Complete(job) =>
      if job.missed { MemorySound(cfg, s, step); } else if job in s.inFlight { CompleteSound(cfg, s, job); }
    case Fail(job) =>
      if job.missed { MemorySound(cfg, s, step); } else if job in s.inFlight { FailSound(cfg, s, job); }
    case FeedMissed(_) => MemorySound(cfg, s, step);
    case CompleteUnrecorded(_) => MemorySound(cfg, s, step);
    case Retry => RetrySound(cfg, s);
    case Snapshot => SnapshotSound(cfg, s);
    case DeleteOne(key) =>
      if s.pruner.Deleting? && key in s.pruner.pending { DeleteSound(cfg, s, key); }
    case Refetch => RefetchSound(cfg, s);
    case Crash(other) => CrashSound(cfg, s, other);
    case ReadHeight => PrunerSound(cfg, s, step);
    case DeleteFails(_) => PrunerSound(cfg, s, step);
    case DeletesDone => PrunerSound(cfg, s, step);
    case RefetchFails => PrunerSound(cfg, s, step);
  }

  lemma {:induction false} ExecSound(cfg: Config, s: State, steps: seq<Step>)
    requires Sound(cfg, s)
    ensures Sound(cfg, Exec(cfg, s, steps))
    decreases |steps|
  {
    if |steps| > 0 {
      StepSound(cfg, s, steps[0]);
      ExecSound(cfg, Next(cfg, s, steps[0]), steps[1..]);
    }
  }
}
