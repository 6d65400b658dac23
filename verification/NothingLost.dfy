/** No packet is lost: in every run, across crashes, every packet above the first recorded completion is complete, in
    memory, queued for retry, still to be fed, or in a gap the pruner will fetch again. */
module NothingLost {
  import opened BigEndian
  import opened Invariants
  import opened Pipeline
  import opened Prune
  import opened Records

  // The packets this attestor is configured to relay.
  predicate InScope(cfg: Config, c: Chain, n: nat) {
    match cfg.kind
    case Aleo => cfg.start <= n
    case Ethereum => OnChain(c, n) && cfg.startHeight <= PacketAt(c, n).height
  }

  ghost predicate Held(s: State, n: nat) {
    OnChain(s.chain, n) && Job(PacketAt(s.chain, n), false) in s.inFlight
  }

  ghost predicate Queued(s: State, n: nat) {
    OnChain(s.chain, n) && PacketAt(s.chain, n) in s.retry
  }

  predicate ToFeed(cfg: Config, c: Chain, cursor: nat, n: nat) {
    match cfg.kind
    case Aleo => cursor <= n
    case Ethereum => OnChain(c, n) && cursor <= PacketAt(c, n).height
  }

  // Missing between two recorded completions.
  ghost predicate InGap(base: seq<Rec>, n: nat) {
    |base| > 0 && base[0].number < n < base[|base| - 1].number && n !in Keys(base)
  }

  // Ethereum resumes after the block of the last record: a later packet of that block is not scanned again.
  predicate SharesLastBlock(cfg: Config, c: Chain, base: seq<Rec>, n: nat) {
    && cfg.kind.Ethereum? && |base| > 0 && OnChain(c, n)
    && base[|base| - 1].number < n && PacketAt(c, n).height == base[|base| - 1].height
  }

  // Where the pipeline keeps packet n.
  ghost predicate Accounted(cfg: Config, s: State, n: nat) {
    || n in s.completed
    || Held(s, n)
    || Queued(s, n)
    || ToFeed(cfg, s.chain, s.cursor, n)
    || InGap(s.base, n)
    || SharesLastBlock(cfg, s.chain, s.base, n)
  }

  // Below every recorded completion: a restart resumes past it and no gap shows it.
  predicate Exposed(base: seq<Rec>, n: nat) {
    |base| > 0 && n < base[0].number
  }

  // Complete, or above a recorded completion.
  predicate Secured(s: State, n: nat) {
    n in s.completed || (|s.base| > 0 && s.base[0].number < n)
  }

  // What is kept of every packet in scope: the only way not to be accounted for is to be exposed.
  ghost predicate Kept(cfg: Config, s: State, n: nat) {
    Exposed(s.base, n) || Accounted(cfg, s, n)
  }

  // The part of Kept that the base namespace alone decides.
  ghost predicate BaseKeeps(cfg: Config, c: Chain, base: seq<Rec>, n: nat) {
    Exposed(base, n) || InGap(base, n) || SharesLastBlock(cfg, c, base, n)
  }

  lemma InsertKeepsOrder(base: seq<Rec>, r: Rec, n: nat)
    requires Ascending(base) && n != r.number && (Exposed(base, n) || InGap(base, n))
    ensures Exposed(Insert(base, r), n) || InGap(Insert(base, r), n)
  {
    assert n !in Keys(base) by { KeyBounds(base); }
    assert n !in Keys(Insert(base, r)) by { InsertKeys(base, r); }
    InsertEnds(base, r);
  }

  // A later completion opens a gap; an earlier one leaves the last record in the same block.
  lemma InsertKeepsShared(cfg: Config, c: Chain, base: seq<Rec>, recorded: set<nat>, pkt: Rec, n: nat)
    requires ChainOk(c) && BaseOk(cfg, c, base, recorded) && Genuine(c, pkt) && n != pkt.number
    requires SharesLastBlock(cfg, c, base, n)
    ensures BaseKeeps(cfg, c, Insert(base, pkt), n)
  {
    var out := Insert(base, pkt);
    InsertEnds(base, pkt);
    KeyBounds(base);
    if n < pkt.number {
      InsertKeys(base, pkt);
    } else {
      InsertBinds(base, pkt);
      assert Genuine(c, base[|base| - 1]);
      assert Genuine(c, out[|out| - 1]) by { assert out[|out| - 1] in out; }
    }
  }

  lemma InsertKeeps(cfg: Config, c: Chain, base: seq<Rec>, recorded: set<nat>, pkt: Rec, n: nat)
    requires ChainOk(c) && BaseOk(cfg, c, base, recorded) && Genuine(c, pkt) && n != pkt.number
    requires BaseKeeps(cfg, c, base, n)
    ensures BaseKeeps(cfg, c, Insert(base, BaseRecord(cfg, pkt)), n)
  {
    if SharesLastBlock(cfg, c, base, n) {
      InsertKeepsShared(cfg, c, base, recorded, pkt, n);
    } else {
      InsertKeepsOrder(base, BaseRecord(cfg, pkt), n);
    }
  }

  // Deleting a superseded key leaves a recorded key below every incomplete packet that had one.
  lemma DeleteKeepsLower(s: State, key: nat, n: nat)
    requires Ascending(s.base) && PrunerOk(s.pruner, Keys(s.base), s.completed)
    requires s.pruner.Deleting? && key in s.pruner.pending
    requires n !in s.completed && |s.base| > 0 && s.base[0].number < n
    ensures var out := Remove(s.base, key); |out| > 0 && out[0].number < n
  {
    var out := Remove(s.base, key);
    RemoveUnbinds(s.base, key);
    var a :| a in s.base && a.number == s.pruner.anchor;
    assert a in out && s.base[0] in s.base;
    if s.base[0].number != key { assert s.base[0] in out; }
  }

  lemma RemoveKeeps(cfg: Config, s: State, key: nat, n: nat)
    requires Sound(cfg, s) && s.pruner.Deleting? && key in s.pruner.pending
    requires n !in s.completed && BaseKeeps(cfg, s.chain, s.base, n)
    ensures BaseKeeps(cfg, s.chain, Remove(s.base, key), n)
  {
    var out := Remove(s.base, key);
    RemoveLow(s.base, key, s.pruner.anchor);
    if Exposed(s.base, n) {
      RemoveUnbinds(s.base, key);
      assert out[0] in out;
    } else {
      assert s.base[0].number <= s.base[|s.base| - 1].number;
      DeleteKeepsLower(s, key, n);
      RemoveKeys(s.base, key);
    }
  }

  // A restart keeps every packet, whatever was in memory.
  lemma CrashKeeps(cfg: Config, s: State, otherHeight: nat, n: nat)
    requires Sound(cfg, s) && InScope(cfg, s.chain, n)
    ensures Kept(cfg, Next(cfg, s, Crash(otherHeight)), n)
  {
    if |s.base| > 0 {
      assert s.base[0] in s.base && s.base[|s.base| - 1] in s.base;
      assert s.base[0].number in Keys(s.base) && s.base[|s.base| - 1].number in Keys(s.base);
    }
  }

  lemma NewBlockKeeps(cfg: Config, s: State, packets: nat, n: nat)
    requires Sound(cfg, s)
    requires InScope(cfg, s.chain, n) ==> Kept(cfg, s, n)
    requires InScope(cfg, Next(cfg, s, NewBlock(packets)).chain, n)
    ensures Kept(cfg, Next(cfg, s, NewBlock(packets)), n)
  {
  }

  lemma ScanHolds(c: Chain, from: nat, to: int, n: nat)
    requires OnChain(c, n) && from <= PacketAt(c, n).height <= to
    ensures Job(PacketAt(c, n), false) in Jobs(PacketsIn(c.outbox, from, to))
  {
    PacketsInMembers(c.outbox, from, to);
    JobsMembers(PacketsIn(c.outbox, from, to));
  }

  // What a scan passes is in memory.
  lemma ScanPasses(cfg: Config, s: State, n: nat)
    requires cfg.kind.Ethereum? && ToFeed(cfg, s.chain, s.cursor, n)
    ensures var t := Feeding(cfg, s); Held(t, n) || ToFeed(cfg, t.chain, t.cursor, n)
  {
    if s.cursor <= s.matured {
      var upTo := if s.cursor + SCAN_SPAN < s.matured then s.cursor + SCAN_SPAN else s.matured;
      if PacketAt(s.chain, n).height <= upTo { ScanHolds(s.chain, s.cursor, upTo, n); }
    }
  }

  lemma FeedKeeps(cfg: Config, s: State, n: nat)
    requires Kept(cfg, s, n)
    ensures Kept(cfg, Feeding(cfg, s), n)
  {
    if cfg.kind.Ethereum? {
      if ToFeed(cfg, s.chain, s.cursor, n) { ScanPasses(cfg, s, n); }
    }
  }

  lemma FailKeeps(cfg: Config, s: State, job: Job, n: nat)
    requires Sound(cfg, s) && Kept(cfg, s, n)
    ensures Kept(cfg, Next(cfg, s, Fail(job)), n)
  {
    if job in s.inFlight && !job.missed {
      assert JobOk(cfg, s.chain, job);
      InsertBinds(s.retry, job.pkt);
    }
  }

  lemma UnrecordedKeeps(cfg: Config, s: State, job: Job, n: nat)
    requires Sound(cfg, s) && Kept(cfg, s, n)
    ensures Kept(cfg, Next(cfg, s, CompleteUnrecorded(job)), n)
  {
    if job in s.inFlight && !job.missed { assert JobOk(cfg, s.chain, job); }
  }

  lemma CompleteKeeps(cfg: Config, s: State, job: Job, n: nat)
    requires Sound(cfg, s) && Kept(cfg, s, n)
    ensures Kept(cfg, Next(cfg, s, Complete(job)), n)
  {
    if job in s.inFlight && !job.missed && n != job.pkt.number {
      assert JobOk(cfg, s.chain, job);
      if BaseKeeps(cfg, s.chain, s.base, n) { InsertKeeps(cfg, s.chain, s.base, s.recorded, job.pkt, n); }
    }
  }

  lemma RetryKeeps(cfg: Config, s: State, n: nat)
    requires Sound(cfg, s) && Kept(cfg, s, n)
    ensures Kept(cfg, Next(cfg, s, Retry), n)
  {
    var k := Min(RETRY_BATCH, |s.retry|);
    JobsMembers(s.retry[..k]);
    assert s.retry == s.retry[..k] + s.retry[k..];
  }

  lemma DeleteKeeps(cfg: Config, s: State, key: nat, n: nat)
    requires Sound(cfg, s) && Kept(cfg, s, n)
    ensures Kept(cfg, Next(cfg, s, DeleteOne(key)), n)
  {
    if s.pruner.Deleting? && key in s.pruner.pending && n !in s.completed && BaseKeeps(cfg, s.chain, s.base, n) {
      RemoveKeeps(cfg, s, key, n);
    }
  }

  // The steps that take nothing away.
  lemma OthersKeep(cfg: Config, s: State, step: Step, n: nat)
    requires Kept(cfg, s, n)
    requires step.ReadHeight? || step.FeedMissed? || step.Snapshot? || step.DeleteFails? || step.DeletesDone? ||
             step.Refetch? || step.RefetchFails?
    ensures Kept(cfg, Next(cfg, s, step), n)
  {
  }

  lemma QuietStepKeeps(cfg: Config, s: State, step: Step, n: nat)
    requires Sound(cfg, s) && Kept(cfg, s, n) && !step.NewBlock? && !step.Crash?
    ensures Kept(cfg, Next(cfg, s, step), n)
  {
    match step
    case Feed => FeedKeeps(cfg, s, n);
    case Complete(job) => CompleteKeeps(cfg, s, job, n);
    case CompleteUnrecorded(job) => UnrecordedKeeps(cfg, s, job, n);
    case Fail(job) => FailKeeps(cfg, s, job, n);
    case Retry => RetryKeeps(cfg, s, n);
    case DeleteOne(key) => DeleteKeeps(cfg, s, key, n);
    case _ => OthersKeep(cfg, s, step, n);
  }

  /** Every step keeps every packet in scope, those new on the chain included. */
  lemma StepKeeps(cfg: Config, s: State, step: Step, n: nat)
    requires Sound(cfg, s)
    requires InScope(cfg, s.chain, n) ==> Kept(cfg, s, n)
    requires InScope(cfg, Next(cfg, s, step).chain, n)
    ensures Kept(cfg, Next(cfg, s, step), n)
  {
    if step.NewBlock? {
      NewBlockKeeps(cfg, s, step.packets, n);
    } else if step.Crash? {
      CrashKeeps(cfg, s, step.otherHeight, n);
    } else {
      assert Next(cfg, s, step).chain == s.chain;
      QuietStepKeeps(cfg, s, step, n);
    }
  }

  /** Once complete or above a recorded completion, a packet stays so: pruning never uncovers an incomplete one. */
  lemma StepKeepsSecured(cfg: Config, s: State, step: Step, n: nat)
    requires Sound(cfg, s) && Secured(s, n)
    ensures Secured(Next(cfg, s, step), n)
  {
    match step
    case Complete(job) =>
      if job in s.inFlight && !job.missed { InsertEnds(s.base, BaseRecord(cfg, job.pkt)); }
    case DeleteOne(key) =>
      if s.pruner.Deleting? && key in s.pruner.pending && n !in s.completed {
        DeleteKeepsLower(s, key, n);
      }
    case _ =>
  }

  lemma {:induction false} ExecKeeps(cfg: Config, s: State, steps: seq<Step>)
    requires Sound(cfg, s)
    requires forall n | InScope(cfg, s.chain, n) :: Kept(cfg, s, n)
    ensures Sound(cfg, Exec(cfg, s, steps))
    ensures forall n | InScope(cfg, Exec(cfg, s, steps).chain, n) :: Kept(cfg, Exec(cfg, s, steps), n)
    decreases |steps|
  {
    if |steps| > 0 {
      var t := Next(cfg, s, steps[0]);
      StepSound(cfg, s, steps[0]);
      forall n | InScope(cfg, t.chain, n) ensures Kept(cfg, t, n) { StepKeeps(cfg, s, steps[0], n); }
      ExecKeeps(cfg, t, steps[1..]);
    }
  }

  lemma {:induction false} ExecKeepsSecured(cfg: Config, s: State, steps: seq<Step>, n: nat)
    requires Sound(cfg, s) && Secured(s, n)
    ensures Secured(Exec(cfg, s, steps), n)
    decreases |steps|
  {
    if |steps| > 0 {
      StepSound(cfg, s, steps[0]);
      StepKeepsSecured(cfg, s, steps[0], n);
      ExecKeepsSecured(cfg, Next(cfg, s, steps[0]), steps[1..], n);
    }
  }

  // A state some run of a fresh attestor reaches.
  ghost predicate Reaches(cfg: Config, c: Chain, steps: seq<Step>, s: State) {
    && cfg.start >= 1 && ChainOk(c)
    && (cfg.kind.Ethereum? ==> cfg.waitHeight <= c.height)
    && s == Exec(cfg, Init(cfg, c), steps)
  }

  /** What holds in every reachable state. */
  lemma ReachedKeeps(cfg: Config, c: Chain, steps: seq<Step>, s: State)
    requires Reaches(cfg, c, steps, s)
    ensures Sound(cfg, s)
    ensures forall n | InScope(cfg, s.chain, n) :: Kept(cfg, s, n)
  {
    InitSound(cfg, c);
    ExecKeeps(cfg, Init(cfg, c), steps);
  }

  // Every number in scope below the first recorded key is complete.
  ghost predicate EstablishedBase(cfg: Config, s: State) {
    && |s.base| > 0
    && forall n: nat | InScope(cfg, s.chain, n) && n < s.base[0].number :: n in s.completed
  }

  lemma EstablishedSecures(cfg: Config, s: State, n: nat)
    requires Sound(cfg, s) && EstablishedBase(cfg, s) && InScope(cfg, s.chain, n)
    ensures Secured(s, n)
  {
    assert s.base[0] in s.base && s.base[0].number in Keys(s.base);
  }

  /** "Everything below the first key is done" is kept by every step: completions interleaved between a pruning
      snapshot and its separate deletes, deletes that fail, and a crash between two deletes included. */
  lemma StepKeepsEstablished(cfg: Config, s: State, step: Step)
    requires Sound(cfg, s) && EstablishedBase(cfg, s)
    ensures EstablishedBase(cfg, Next(cfg, s, step))
  {
    var t := Next(cfg, s, step);
    assert s.base[0] in s.base && s.base[0].number in Keys(s.base);
    assert Mature(cfg, s.chain, s.base[0].number);
    forall n: nat | InScope(cfg, t.chain, n) ensures Secured(t, n) {
      if InScope(cfg, s.chain, n) { EstablishedSecures(cfg, s, n); }
      StepKeepsSecured(cfg, s, step, n);
    }
    StepKeepsSecured(cfg, s, step, s.base[0].number + 1);
    if |t.base| == 0 {
      assert step.DeleteOne?;
      DeleteSound(cfg, s, step.key);
    }
  }

  lemma {:induction false} ExecKeepsEstablished(cfg: Config, s: State, steps: seq<Step>)
    requires Sound(cfg, s) && EstablishedBase(cfg, s)
    ensures EstablishedBase(cfg, Exec(cfg, s, steps))
    decreases |steps|
  {
    if |steps| > 0 {
      StepSound(cfg, s, steps[0]);
      StepKeepsEstablished(cfg, s, steps[0]);
      ExecKeepsEstablished(cfg, Next(cfg, s, steps[0]), steps[1..]);
    }
  }

  /** The first completion recorded establishes the base exactly when nothing in scope below it is incomplete: on
      Aleo, when it is the completion of the start number or every number from the start up to it is complete. */
  lemma FirstCompletionEstablishes(cfg: Config, s: State, job: Job)
    requires Sound(cfg, s) && |s.base| == 0
    requires job in s.inFlight && !job.missed
    ensures EstablishedBase(cfg, Next(cfg, s, Complete(job))) <==>
            forall n: nat | InScope(cfg, s.chain, n) && n < job.pkt.number :: n in s.completed
  {
    InsertEnds(s.base, BaseRecord(cfg, job.pkt));
  }

  /** Nothing is lost: once the base is established, every continuation of every run keeps it established and
      accounts for every packet in scope. */
  lemma NothingLost(cfg: Config, c: Chain, before: seq<Step>, s: State, after: seq<Step>)
    requires Reaches(cfg, c, before, s)
    requires EstablishedBase(cfg, s)
    ensures EstablishedBase(cfg, Exec(cfg, s, after))
    ensures forall n: nat | InScope(cfg, Exec(cfg, s, after).chain, n) :: Accounted(cfg, Exec(cfg, s, after), n)
  {
    ReachedKeeps(cfg, c, before, s);
    ExecKeeps(cfg, s, after);
    ExecKeepsEstablished(cfg, s, after);
  }

  /** Final packets only: in every reachable state, every packet held for signing that the feeder, the retry queue or a
      gap refetch put there had waitHeight blocks on top of it. (Missed packets, named by the collector, are exempt.) */
  lemma OnlyFinalPacketsHeld(cfg: Config, c: Chain, steps: seq<Step>, s: State, job: Job)
    requires Reaches(cfg, c, steps, s)
    requires job in s.inFlight && !job.missed
    ensures OnChain(s.chain, job.pkt.number) && PacketAt(s.chain, job.pkt.number) == job.pkt
    ensures job.pkt.height + cfg.waitHeight <= s.chain.height
  {
    ReachedKeeps(cfg, c, steps, s);
    assert JobOk(cfg, s.chain, job);
  }

  /** The unsigned subtraction yields a matured height exactly when the chain is at least waitHeight blocks high. */
  lemma MaturedHeightExact(cfg: Config, height: U64)
    requires cfg.kind.Ethereum? && 0 < cfg.waitHeight < U64_LIMIT
    ensures MaturedHeight(cfg, height) + cfg.waitHeight <= height <==> cfg.waitHeight <= height
  {
    if height < cfg.waitHeight {
      assert (height - cfg.waitHeight) % U64_LIMIT == height - cfg.waitHeight + U64_LIMIT;
    }
  }

  // ---------- Resuming ----------

  lemma {:induction false} ExecRecords(cfg: Config, s: State, steps: seq<Step>)
    ensures s.recorded <= Exec(cfg, s, steps).recorded
    decreases |steps|
  {
    if |steps| > 0 {
      ExecRecords(cfg, Next(cfg, s, steps[0]), steps[1..]);
    }
  }

  /** Resume exactness: pruning never changes where a restart resumes. In every reachable state the starting sequence
      number is one past the largest number ever recorded complete, or zero if there is none. */
  lemma ResumesPastMaximum(cfg: Config, c: Chain, steps: seq<Step>, s: State)
    requires Reaches(cfg, c, steps, s)
    ensures s.recorded == {} <==> ResumeSeq(s.base) == 0
    ensures s.recorded != {} ==> ResumeSeq(s.base) - 1 in s.recorded
    ensures forall n | n in s.recorded :: n < ResumeSeq(s.base)
  {
    ReachedKeeps(cfg, c, steps, s);
    if |s.base| > 0 {
      assert s.base[|s.base| - 1] in s.base && s.base[|s.base| - 1].number in Keys(s.base);
    }
  }

  /** So a restarted Aleo feeder goes on at the larger of the configured start and one past the largest number ever
      recorded complete. */
  lemma AleoRestartCursor(cfg: Config, c: Chain, steps: seq<Step>, s: State, otherHeight: nat)
    requires Reaches(cfg, c, steps, s) && cfg.kind.Aleo?
    ensures var cursor := Next(cfg, s, Crash(otherHeight)).cursor;
            && cfg.start <= cursor && (forall n | n in s.recorded :: n < cursor)
            && (cursor == cfg.start || cursor - 1 in s.recorded)
  {
    ResumesPastMaximum(cfg, c, steps, s);
  }

  // A fresh feeder starts at the configured number or block.
  lemma FreshCursor(cfg: Config, c: Chain)
    ensures Init(cfg, c).cursor == if cfg.kind.Aleo? then cfg.start else cfg.startHeight
  {
  }

  lemma ScanState(cfg: Config, s: State)
    requires cfg.kind.Ethereum? && s.cursor <= s.matured
    ensures var upTo := if s.cursor + 101 <= s.matured + 1 then s.cursor + 101 else s.matured + 1;
            Next(cfg, s, Feed) ==
            s.(inFlight := s.inFlight + Jobs(PacketsIn(s.chain.outbox, s.cursor, upTo - 1)), cursor := upTo)
  {
  }

  /** One step of an Ethereum scan passes 101 blocks, or all that are matured if those are fewer, and puts exactly their
      packets in memory. */
  lemma ScanOf101Blocks(cfg: Config, s: State)
    requires cfg.kind.Ethereum? && s.cursor <= s.matured
    ensures var upTo := if s.cursor + 101 <= s.matured + 1 then s.cursor + 101 else s.matured + 1;
            var pkts := PacketsIn(s.chain.outbox, s.cursor, upTo - 1);
            && Next(cfg, s, Feed) == s.(inFlight := s.inFlight + Jobs(pkts), cursor := upTo)
            && forall p :: p in pkts <==> Genuine(s.chain, p) && s.cursor <= p.height < upTo
  {
    ScanState(cfg, s);
    hide Next;
    PacketsInMembers(s.chain.outbox, s.cursor, (if s.cursor + 101 <= s.matured + 1 then s.cursor + 101 else s.matured + 1) - 1);
  }

  /** One tick of the retry feed moves the ten lowest queued packets to memory, or all if there are fewer. */
  lemma RetryOfTen(cfg: Config, s: State)
    ensures var k := if 10 < |s.retry| then 10 else |s.retry|;
            Next(cfg, s, Retry) == s.(inFlight := s.inFlight + Jobs(s.retry[..k]), retry := s.retry[k..])
  {
  }

  /** It never moves back. */
  lemma ResumeNeverDecreases(cfg: Config, c: Chain, steps: seq<Step>, s: State, more: seq<Step>)
    requires Reaches(cfg, c, steps, s)
    ensures ResumeSeq(s.base) <= ResumeSeq(Exec(cfg, s, more).base)
  {
    ReachedKeeps(cfg, c, steps, s);
    ResumesPastMaximum(cfg, c, steps, s);
    ExecSound(cfg, s, more);
    ExecRecords(cfg, s, more);
    var t := Exec(cfg, s, more);
    assert ResumeSeq(s.base) > 0 ==> ResumeSeq(s.base) - 1 in t.recorded;
  }

  // ---------- What single steps leave behind ----------

  /** A missed packet named by the collector is brought into memory, and once processed, however that went, it leaves the
      pipeline as it was. */
  lemma MissedLeavesNoTrace(cfg: Config, s: State, n: nat, step: Step)
    requires OnChain(s.chain, n)
    requires var job := Job(PacketAt(s.chain, n), true); step in {Complete(job), CompleteUnrecorded(job), Fail(job)}
    ensures Job(PacketAt(s.chain, n), true) in Next(cfg, s, FeedMissed(n)).inFlight
    ensures Next(cfg, Next(cfg, s, FeedMissed(n)), step) == s
  {
    var job := Job(PacketAt(s.chain, n), true);
    assert s.inFlight + multiset{job} - multiset{job} == s.inFlight;
  }

  // On Aleo a chain exactly waitHeight high reads as an error, and the height read before stays; not so on Ethereum.
  lemma ZeroReadsAsError(cfg: Config, s: State)
    requires s.chain.height == cfg.waitHeight
    ensures Next(cfg, s, ReadHeight) == if cfg.kind.Aleo? then s else s.(matured := 0)
  {
  }

  ghost predicate NoHeights(base: seq<Rec>) { forall r | r in base :: r.height == 0 }

  lemma StepNoHeights(cfg: Config, s: State, step: Step)
    requires cfg.kind.Aleo? && Ascending(s.base) && NoHeights(s.base)
    ensures NoHeights(Next(cfg, s, step).base)
  {
    match step
    case Complete(job) => if job in s.inFlight && !job.missed { InsertBinds(s.base, BaseRecord(cfg, job.pkt)); }
    case DeleteOne(key) => RemoveUnbinds(s.base, key);
    case _ =>
  }

  lemma {:induction false} ExecNoHeights(cfg: Config, s: State, steps: seq<Step>)
    requires cfg.kind.Aleo? && Sound(cfg, s) && NoHeights(s.base)
    ensures NoHeights(Exec(cfg, s, steps).base)
    decreases |steps|
  {
    if |steps| > 0 {
      StepSound(cfg, s, steps[0]);
      StepNoHeights(cfg, s, steps[0]);
      ExecNoHeights(cfg, Next(cfg, s, steps[0]), steps[1..]);
    }
  }

  /** In every reachable state an Aleo record carries no height, and an Ethereum record its packet's own. */
  lemma RecordedHeights(cfg: Config, c: Chain, steps: seq<Step>, s: State)
    requires Reaches(cfg, c, steps, s)
    ensures cfg.kind.Aleo? ==> NoHeights(s.base)
    ensures cfg.kind.Ethereum? ==> forall r | r in s.base :: OnChain(s.chain, r.number) && PacketAt(s.chain, r.number) == r
  {
    ReachedKeeps(cfg, c, steps, s);
    InitSound(cfg, c);
    if cfg.kind.Aleo? { ExecNoHeights(cfg, Init(cfg, c), steps); }
  }

  // ---------- Ethereum restarts ----------

  /** After a restart, an incomplete packet above the last record is scanned again by height, exactly unless it shares
      the last record's block and no other destination makes the client resume lower. */
  lemma EthereumRestartRescans(cfg: Config, s: State, otherHeight: nat, n: nat)
    requires Sound(cfg, s) && cfg.kind.Ethereum? && InScope(cfg, s.chain, n)
    requires |s.base| > 0 && s.base[|s.base| - 1].number < n
    ensures var t := Next(cfg, s, Crash(otherHeight));
            var last := s.base[|s.base| - 1].height;
            ToFeed(cfg, t.chain, t.cursor, n) <==>
            !SharesLastBlock(cfg, t.chain, t.base, n) || otherHeight <= last || last == 0
  {
    assert Genuine(s.chain, s.base[|s.base| - 1]);
  }

  /** A packet passed over that way becomes a gap as soon as any later packet's completion is recorded. */
  lemma LaterCompletionOpensGap(cfg: Config, s: State, job: Job, n: nat)
    requires Sound(cfg, s) && SharesLastBlock(cfg, s.chain, s.base, n)
    requires job in s.inFlight && !job.missed && n < job.pkt.number
    ensures InGap(Next(cfg, s, Complete(job)).base, n)
  {
    var r := BaseRecord(cfg, job.pkt);
    InsertEnds(s.base, r);
    InsertKeys(s.base, r);
  }
}
