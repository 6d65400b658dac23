/** Exactly which packets a pipeline can lose for good. */
module LostForever {
  import opened BigEndian
  import opened Invariants
  import opened NothingLost
  import opened Pipeline
  import opened Prune
  import opened Records
  import opened Runs

  // The runs considered: any at all on Aleo; on Ethereum, those in which no other destination makes the client resume
  // lower than this one does.
  predicate StepAlone(cfg: Config, s: State, step: Step) {
    cfg.kind.Ethereum? && step.Crash? ==> ResumeHeight(s.base) <= step.otherHeight
  }

  ghost predicate Alone(cfg: Config, s: State, steps: seq<Step>)
    decreases |steps|
  {
    |steps| == 0 || (StepAlone(cfg, s, steps[0]) && Alone(cfg, Next(cfg, s, steps[0]), steps[1..]))
  }

  // No continuation ever accounts for the packet again.
  ghost predicate Lost(cfg: Config, s: State, n: nat) {
    forall more: seq<Step> | Alone(cfg, s, more) :: !Accounted(cfg, Exec(cfg, s, more), n)
  }

  ghost predicate CanLose(cfg: Config, s: State, n: nat) {
    exists steps: seq<Step> :: Alone(cfg, s, steps) && Lost(cfg, Exec(cfg, s, steps), n)
  }

  lemma {:induction false} AloneAppend(cfg: Config, s: State, a: seq<Step>, b: seq<Step>)
    requires Alone(cfg, s, a) && Alone(cfg, Exec(cfg, s, a), b)
    ensures Alone(cfg, s, a + b)
    decreases |a|
  {
    if |a| == 0 {
      assert a + b == b;
    } else {
      assert (a + b)[0] == a[0] && (a + b)[1..] == a[1..] + b;
      AloneAppend(cfg, Next(cfg, s, a[0]), a[1..], b);
    }
  }

  lemma {:induction false} AloneWithoutCrash(cfg: Config, s: State, steps: seq<Step>)
    requires forall step | step in steps :: !step.Crash?
    ensures Alone(cfg, s, steps)
    decreases |steps|
  {
    if |steps| > 0 { AloneWithoutCrash(cfg, Next(cfg, s, steps[0]), steps[1..]); }
  }

  // Both runs, one after the other.
  lemma Both(cfg: Config, s: State, a: seq<Step>, b: seq<Step>) returns (steps: seq<Step>)
    requires Alone(cfg, s, a) && Alone(cfg, Exec(cfg, s, a), b)
    ensures Alone(cfg, s, steps) && Exec(cfg, s, steps) == Exec(cfg, Exec(cfg, s, a), b)
  {
    steps := a + b;
    AloneAppend(cfg, s, a, b);
    ExecAppend(cfg, s, a, b);
  }

  lemma Single(cfg: Config, s: State, step: Step) returns (steps: seq<Step>)
    requires StepAlone(cfg, s, step)
    ensures Alone(cfg, s, steps) && Exec(cfg, s, steps) == Next(cfg, s, step)
  {
    steps := [step];
    ExecOne(cfg, s, step);
    assert steps[1..] == [];
  }

  // ---------- A packet that is gone stays gone ----------

  // The feeder is past the packet; block 0 counts as no height in the store.
  predicate Passed(cfg: Config, s: State, n: nat) {
    match cfg.kind
    case Aleo => n < s.cursor
    case Ethereum => OnChain(s.chain, n) && 0 < PacketAt(s.chain, n).height < s.cursor
  }

  // The pruner will fetch nothing as low as the packet.
  predicate PrunerAbove(pruner: Pruner, n: nat) {
    match pruner
    case Idle => true
    case Deleting(_, _, gap) => gap.Some? ==> n < gap.value.below.number
    case Refetching(at, _) => n < at
  }

  ghost predicate HeldAbove(jobs: multiset<Job>, n: nat) {
    forall j | j in jobs && !j.missed :: n < j.pkt.number
  }

  ghost predicate QueuedAbove(retry: seq<Rec>, n: nat) {
    forall r | r in retry :: n < r.number
  }

  // Everything the pipeline still has, or will fetch, lies above the packet.
  ghost predicate Gone(cfg: Config, s: State, n: nat) {
    && n !in s.completed
    && Exposed(s.base, n)
    && Passed(cfg, s, n)
    && HeldAbove(s.inFlight, n) && QueuedAbove(s.retry, n) && PrunerAbove(s.pruner, n)
  }

  lemma GoneIsUnaccounted(cfg: Config, s: State, n: nat)
    requires Ascending(s.base) && Gone(cfg, s, n)
    ensures !Accounted(cfg, s, n)
  {
    assert s.base[0].number <= s.base[|s.base| - 1].number;
  }

  lemma SnapshotKeepsGone(cfg: Config, s: State, n: nat)
    requires Sound(cfg, s) && Gone(cfg, s, n)
    ensures Gone(cfg, Next(cfg, s, Snapshot), n)
  {
    FirstGapIsHole(s.base);
    assert forall r | r in s.base :: n < r.number;
  }

  lemma DeleteKeepsGone(cfg: Config, s: State, key: nat, n: nat)
    requires Sound(cfg, s) && Gone(cfg, s, n)
    ensures Gone(cfg, Next(cfg, s, DeleteOne(key)), n)
  {
    if s.pruner.Deleting? && key in s.pruner.pending {
      RemoveUnbinds(s.base, key);
      RemoveLow(s.base, key, s.pruner.anchor);
      var after := Remove(s.base, key);
      assert after[0] in after;
    }
  }

  lemma CompleteKeepsGone(cfg: Config, s: State, job: Job, n: nat)
    requires Ascending(s.base) && Gone(cfg, s, n)
    ensures Gone(cfg, Next(cfg, s, Complete(job)), n)
  {
    if job in s.inFlight && !job.missed { InsertEnds(s.base, BaseRecord(cfg, job.pkt)); }
  }

  lemma FailKeepsGone(cfg: Config, s: State, job: Job, n: nat)
    requires Ascending(s.retry) && Gone(cfg, s, n)
    ensures Gone(cfg, Next(cfg, s, Fail(job)), n)
  {
    if job in s.inFlight && !job.missed { InsertBinds(s.retry, job.pkt); }
  }

  lemma LaterBlockLaterNumber(c: Chain, n: nat, p: Rec)
    requires ChainOk(c) && OnChain(c, n) && Genuine(c, p) && PacketAt(c, n).height < p.height
    ensures n < p.number
  {
  }

  lemma ScannedAbove(c: Chain, from: nat, upTo: int, n: nat)
    requires ChainOk(c) && OnChain(c, n) && PacketAt(c, n).height < from
    ensures HeldAbove(Jobs(PacketsIn(c.outbox, from, upTo)), n)
  {
    var pkts := PacketsIn(c.outbox, from, upTo);
    PacketsInMembers(c.outbox, from, upTo);
    JobsMembers(pkts);
    forall p | p in pkts ensures n < p.number { LaterBlockLaterNumber(c, n, p); }
  }

  lemma ScanKeepsGone(cfg: Config, s: State, n: nat)
    requires cfg.kind.Ethereum? && ChainOk(s.chain) && Gone(cfg, s, n)
    ensures Gone(cfg, Feeding(cfg, s), n)
  {
    if s.cursor <= s.matured {
      ScannedAbove(s.chain, s.cursor, Feeding(cfg, s).cursor - 1, n);
    }
  }

  lemma FeedKeepsGone(cfg: Config, s: State, n: nat)
    requires Sound(cfg, s) && Gone(cfg, s, n)
    ensures Gone(cfg, Next(cfg, s, Feed), n)
  {
    if cfg.kind.Ethereum? { ScanKeepsGone(cfg, s, n); }
  }

  lemma RetryKeepsGone(cfg: Config, s: State, n: nat)
    requires Gone(cfg, s, n)
    ensures Gone(cfg, Next(cfg, s, Retry), n)
  {
    JobsMembers(s.retry[..Min(RETRY_BATCH, |s.retry|)]);
  }

  lemma PrunerKeepsGone(cfg: Config, s: State, step: Step, n: nat)
    requires Gone(cfg, s, n)
    requires step.DeleteFails? || step.DeletesDone? || step.Refetch? || step.RefetchFails?
    ensures Gone(cfg, Next(cfg, s, step), n)
  {
  }

  lemma OthersKeepGone(cfg: Config, s: State, step: Step, n: nat)
    requires Gone(cfg, s, n)
    requires step.CompleteUnrecorded? || step.FeedMissed? || step.ReadHeight?
    ensures Gone(cfg, Next(cfg, s, step), n)
  {
  }

  lemma NewBlockKeepsGone(cfg: Config, s: State, packets: nat, n: nat)
    requires Gone(cfg, s, n)
    ensures Gone(cfg, Next(cfg, s, NewBlock(packets)), n)
  {
  }

  // A restart resumes past every packet below the records.
  lemma ResumesPast(cfg: Config, s: State, n: nat)
    requires Sound(cfg, s) && Exposed(s.base, n)
    requires cfg.kind.Ethereum? ==> OnChain(s.chain, n) && 0 < PacketAt(s.chain, n).height
    ensures cfg.kind.Aleo? ==> n < ResumeSeq(s.base)
    ensures cfg.kind.Ethereum? ==> PacketAt(s.chain, n).height < ResumeHeight(s.base)
  {
    var last := s.base[|s.base| - 1];
    assert last in s.base && s.base[0].number <= last.number;
    if cfg.kind.Ethereum? { assert Genuine(s.chain, last); }
  }

  lemma CrashKeepsGone(cfg: Config, s: State, other: nat, n: nat)
    requires Sound(cfg, s) && Gone(cfg, s, n) && StepAlone(cfg, s, Crash(other))
    ensures Gone(cfg, Next(cfg, s, Crash(other)), n)
  {
    ResumesPast(cfg, s, n);
  }

  lemma StepKeepsGone(cfg: Config, s: State, step: Step, n: nat)
    requires Sound(cfg, s) && Gone(cfg, s, n) && StepAlone(cfg, s, step)
    ensures Gone(cfg, Next(cfg, s, step), n)
  {
    match step
    case NewBlock(packets) => NewBlockKeepsGone(cfg, s, packets, n);
    case Feed => FeedKeepsGone(cfg, s, n);
    case Complete(job) => CompleteKeepsGone(cfg, s, job, n);
    case Fail(job) => FailKeepsGone(cfg, s, job, n);
    case Retry => RetryKeepsGone(cfg, s, n);
    case Snapshot => SnapshotKeepsGone(cfg, s, n);
    case DeleteOne(key) => DeleteKeepsGone(cfg, s, key, n);
    case Crash(other) => CrashKeepsGone(cfg, s, other, n);
    case DeleteFails(_) | DeletesDone | Refetch | RefetchFails => PrunerKeepsGone(cfg, s, step, n);
    case _ => OthersKeepGone(cfg, s, step, n);
  }

  lemma {:induction false} GoneForGood(cfg: Config, s: State, more: seq<Step>, n: nat)
    requires Sound(cfg, s) && Gone(cfg, s, n) && Alone(cfg, s, more)
    ensures !Accounted(cfg, Exec(cfg, s, more), n)
    decreases |more|
  {
    if |more| == 0 {
      GoneIsUnaccounted(cfg, s, n);
    } else {
      StepSound(cfg, s, more[0]);
      StepKeepsGone(cfg, s, more[0], n);
      GoneForGood(cfg, Next(cfg, s, more[0]), more[1..], n);
    }
  }

  // ---------- Losing an exposed packet: crashes alone do it ----------

  // The state after a restart.
  function Restarted(cfg: Config, s: State): State {
    s.(matured := -1, cursor := ResumeCursor(cfg, s.base, ResumeHeight(s.base)), inFlight := multiset{}, pruner := Idle)
  }

  lemma Restart(cfg: Config, s: State) returns (steps: seq<Step>)
    ensures Alone(cfg, s, steps) && Exec(cfg, s, steps) == Restarted(cfg, s)
  {
    steps := Single(cfg, s, Crash(ResumeHeight(s.base)));
  }

  lemma RetryThenRestart(cfg: Config, s: State) returns (steps: seq<Step>)
    ensures Alone(cfg, s, steps)
    ensures Exec(cfg, s, steps) == Restarted(cfg, s).(retry := s.retry[Min(RETRY_BATCH, |s.retry|)..])
  {
    var retry := Single(cfg, s, Retry);
    var restart := Restart(cfg, Next(cfg, s, Retry));
    steps := Both(cfg, s, retry, restart);
  }

  // Retries that never finish empty the retry namespace.
  lemma {:induction false} DrainRetry(cfg: Config, s: State) returns (steps: seq<Step>)
    requires s == Restarted(cfg, s)
    ensures Alone(cfg, s, steps) && Exec(cfg, s, steps) == s.(retry := [])
    decreases |s.retry|
  {
    if |s.retry| == 0 {
      steps := [];
    } else {
      var round := RetryThenRestart(cfg, s);
      var t := s.(retry := s.retry[Min(RETRY_BATCH, |s.retry|)..]);
      assert t == Restarted(cfg, t);
      var rest := DrainRetry(cfg, t);
      steps := Both(cfg, s, round, rest);
    }
  }

  lemma LoseExposed(cfg: Config, s: State, n: nat) returns (steps: seq<Step>)
    requires Sound(cfg, s) && n !in s.completed && Exposed(s.base, n)
    requires cfg.kind.Ethereum? ==> OnChain(s.chain, n) && 0 < PacketAt(s.chain, n).height
    ensures Alone(cfg, s, steps) && Sound(cfg, Exec(cfg, s, steps)) && Gone(cfg, Exec(cfg, s, steps), n)
  {
    var restart := Restart(cfg, s);
    var drain := DrainRetry(cfg, Restarted(cfg, s));
    steps := Both(cfg, s, restart, drain);
    ResumesPast(cfg, s, n);
    ExecSound(cfg, s, steps);
  }

  // ---------- Exposing a packet while nothing is recorded: a later packet completes first ----------

  lemma CompleteFirst(cfg: Config, s: State, n: nat) returns (steps: seq<Step>)
    requires OnChain(s.chain, n + 1) && Job(PacketAt(s.chain, n + 1), false) in s.inFlight
    requires n !in s.completed && s.base == []
    ensures Alone(cfg, s, steps)
    ensures var t := Exec(cfg, s, steps); n !in t.completed && Exposed(t.base, n)
  {
    var job := Job(PacketAt(s.chain, n + 1), false);
    InsertEnds([], BaseRecord(cfg, job.pkt));
    steps := Single(cfg, s, Complete(job));
  }

  // All packets are final by then.
  lemma AllFinal(cfg: Config, s: State, packets: nat, m: nat)
    requires ChainOk(s.chain) && OnChain(Grown(cfg, s, packets).chain, m)
    ensures PacketAt(Grown(cfg, s, packets).chain, m).height <= s.chain.height + 1
    ensures m <= |s.chain.outbox| ==> PacketAt(Grown(cfg, s, packets).chain, m) == PacketAt(s.chain, m)
  {
    if m <= |s.chain.outbox| { assert s.chain.outbox[m - 1] in s.chain.outbox; }
  }

  // The packet after n is no earlier than n.
  lemma NextNotEarlier(cfg: Config, s: State, packets: nat, n: nat)
    requires ChainOk(s.chain) && OnChain(s.chain, n) && OnChain(Grown(cfg, s, packets).chain, n + 1)
    ensures PacketAt(s.chain, n).height <= PacketAt(Grown(cfg, s, packets).chain, n + 1).height
  {
    AllFinal(cfg, s, packets, n);
    assert s.chain.outbox[n - 1] in s.chain.outbox;
  }

  // The feeder brings the packet after n into memory.
  lemma FeedNext(cfg: Config, s: State, n: nat) returns (steps: seq<Step>)
    requires Sound(cfg, s) && InScope(cfg, s.chain, n)
    requires s.cursor == ResumeCursor(cfg, [], 0)
    ensures var t := Grown(cfg, s, n + 1);
            && Alone(cfg, t, steps) && OnlyFed(t, Exec(cfg, t, steps)) && OnChain(t.chain, n + 1)
            && Job(PacketAt(t.chain, n + 1), false) in Exec(cfg, t, steps).inFlight
  {
    var t := Grown(cfg, s, n + 1);
    match cfg.kind {
      case Aleo =>
        forall m: nat | OnChain(t.chain, m) ensures PacketAt(t.chain, m).height <= t.matured {
          AllFinal(cfg, s, n + 1, m);
        }
      case Ethereum =>
        AllFinal(cfg, s, n + 1, n + 1);
        NextNotEarlier(cfg, s, n + 1, n);
    }
    steps := FeedUpTo(cfg, t, n + 1);
    AloneWithoutCrash(cfg, t, steps);
  }

  lemma CompleteNext(cfg: Config, s: State, n: nat) returns (steps: seq<Step>)
    requires Sound(cfg, s) && s.base == [] && n !in s.completed && InScope(cfg, s.chain, n)
    requires s.cursor == ResumeCursor(cfg, [], 0)
    ensures var t := Grown(cfg, s, n + 1);
            && Alone(cfg, t, steps)
            && n !in Exec(cfg, t, steps).completed && Exposed(Exec(cfg, t, steps).base, n)
  {
    var t := Grown(cfg, s, n + 1);
    var feed := FeedNext(cfg, s, n);
    var done := CompleteFirst(cfg, Exec(cfg, t, feed), n);
    steps := Both(cfg, t, feed, done);
  }

  lemma GrowAlone(cfg: Config, s: State, packets: nat) returns (steps: seq<Step>)
    requires cfg.kind.Ethereum? ==> s.chain.height + 1 < U64_LIMIT
    ensures Alone(cfg, s, steps) && Exec(cfg, s, steps) == Grown(cfg, s, packets)
  {
    steps := Grow(cfg, s, packets);
    AloneWithoutCrash(cfg, s, steps);
  }

  // From an empty base, a run that records the packet after n and not n.
  lemma CompleteLater(cfg: Config, s: State, n: nat) returns (steps: seq<Step>)
    requires Sound(cfg, s) && |s.base| == 0 && n !in s.completed && InScope(cfg, s.chain, n)
    requires cfg.kind.Ethereum? ==> s.chain.height + 1 < U64_LIMIT
    ensures Alone(cfg, s, steps)
    ensures var t := Exec(cfg, s, steps); n !in t.completed && Exposed(t.base, n)
  {
    var restart := Restart(cfg, s);
    var r := Restarted(cfg, s);
    ExecSound(cfg, s, restart);
    var grow := GrowAlone(cfg, r, n + 1);
    var back := CompleteNext(cfg, r, n);
    var most := Both(cfg, r, grow, back);
    steps := Both(cfg, s, restart, most);
  }

  // ---------- Exactly which ----------

  lemma {:induction false} StaysInScope(cfg: Config, s: State, steps: seq<Step>, n: nat)
    requires InScope(cfg, s.chain, n)
    ensures InScope(cfg, Exec(cfg, s, steps).chain, n)
    ensures OnChain(s.chain, n) ==>
              OnChain(Exec(cfg, s, steps).chain, n) && PacketAt(Exec(cfg, s, steps).chain, n) == PacketAt(s.chain, n)
    decreases |steps|
  {
    if |steps| > 0 {
      ChainGrows(cfg, s, steps[0]);
      StaysInScope(cfg, Next(cfg, s, steps[0]), steps[1..], n);
    }
  }

  lemma ChainGrows(cfg: Config, s: State, step: Step)
    ensures s.chain.outbox <= Next(cfg, s, step).chain.outbox
  {
  }

  lemma SecuredNeverLost(cfg: Config, s: State, n: nat)
    requires Sound(cfg, s) && Secured(s, n) && InScope(cfg, s.chain, n)
    requires forall m | InScope(cfg, s.chain, m) :: Kept(cfg, s, m)
    ensures !CanLose(cfg, s, n)
  {
    forall steps: seq<Step> ensures !Lost(cfg, Exec(cfg, s, steps), n) {
      ExecKeeps(cfg, s, steps);
      ExecKeepsSecured(cfg, s, steps, n);
      StaysInScope(cfg, s, steps, n);
      var t := Exec(cfg, s, steps);
      assert Kept(cfg, t, n);
      assert Alone(cfg, t, []) && Accounted(cfg, Exec(cfg, t, []), n);
    }
  }

  lemma ExposedCanBeLost(cfg: Config, s: State, n: nat)
    requires Sound(cfg, s) && n !in s.completed && Exposed(s.base, n)
    requires cfg.kind.Ethereum? ==> OnChain(s.chain, n) && 0 < PacketAt(s.chain, n).height
    ensures CanLose(cfg, s, n)
  {
    var steps := LoseExposed(cfg, s, n);
    var t := Exec(cfg, s, steps);
    forall more: seq<Step> | Alone(cfg, t, more) ensures !Accounted(cfg, Exec(cfg, t, more), n) {
      GoneForGood(cfg, t, more, n);
    }
    assert Lost(cfg, t, n);
  }

  lemma LosableLater(cfg: Config, s: State, steps: seq<Step>, n: nat)
    requires Alone(cfg, s, steps) && CanLose(cfg, Exec(cfg, s, steps), n)
    ensures CanLose(cfg, s, n)
  {
    var t := Exec(cfg, s, steps);
    var rest: seq<Step> :| Alone(cfg, t, rest) && Lost(cfg, Exec(cfg, t, rest), n);
    var all := Both(cfg, s, steps, rest);
  }

  /** In every reachable state of either pipeline, a packet in scope can still be lost for good exactly when it is
      incomplete and no completion below it has been recorded. On Ethereum this is about runs in which no other
      destination makes the client resume lower, packets after block 0, and block heights that fit uint64. */
  lemma LosableIffUnsecured(cfg: Config, c: Chain, before: seq<Step>, s: State, n: nat)
    requires Reaches(cfg, c, before, s) && InScope(cfg, s.chain, n)
    requires cfg.kind.Ethereum? ==> 0 < PacketAt(s.chain, n).height && s.chain.height + 1 < U64_LIMIT
    ensures CanLose(cfg, s, n) <==> !Secured(s, n)
  {
    ReachedKeeps(cfg, c, before, s);
    if Secured(s, n) {
      SecuredNeverLost(cfg, s, n);
    } else if |s.base| > 0 {
      assert s.base[0] in s.base && s.base[0].number in Keys(s.base);
      ExposedCanBeLost(cfg, s, n);
    } else {
      var steps := CompleteLater(cfg, s, n);
      ExecSound(cfg, s, steps);
      StaysInScope(cfg, s, steps, n);
      ExposedCanBeLost(cfg, Exec(cfg, s, steps), n);
      LosableLater(cfg, s, steps, n);
    }
  }
}
