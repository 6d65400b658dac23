/** Every packet fed is in exactly one place, and there once, while nothing puts a second copy in memory. */
module Conservation {
  import opened Invariants
  import opened NothingLost
  import opened Pipeline
  import opened Prune
  import opened Records

  // Steps other than restarts and gap refetches.
  predicate Quiet(step: Step) {
    !step.Crash? && !step.Refetch?
  }

  function One(b: bool): nat { if b then 1 else 0 }

  // How many times packet n occurs in memory, the retry namespace and the completed set together.
  ghost function Copies(s: State, n: nat): nat
    requires OnChain(s.chain, n)
  {
    s.inFlight[Job(PacketAt(s.chain, n), false)] + One(PacketAt(s.chain, n) in s.retry) + One(n in s.completed)
  }

  // The feeder has passed the packet.
  predicate Fed(cfg: Config, s: State, n: nat) {
    InScope(cfg, s.chain, n) && !ToFeed(cfg, s.chain, s.cursor, n)
  }

  ghost predicate Conserved(cfg: Config, s: State) {
    forall n: nat | OnChain(s.chain, n) :: Copies(s, n) == One(Fed(cfg, s, n))
  }

  ghost predicate Distinct(pkts: seq<Rec>) {
    forall i, j | 0 <= i < j < |pkts| :: pkts[i] != pkts[j]
  }

  lemma {:induction false} JobsCount(pkts: seq<Rec>)
    requires Distinct(pkts)
    ensures forall p :: Jobs(pkts)[Job(p, false)] == One(p in pkts)
  {
    if |pkts| > 0 {
      var front := pkts[..|pkts| - 1];
      JobsCount(front);
      assert pkts == front + [pkts[|pkts| - 1]];
    }
  }

  lemma {:induction false} PacketsInDistinct(outbox: seq<nat>, from: nat, to: int)
    ensures Distinct(PacketsIn(outbox, from, to))
  {
    if |outbox| > 0 {
      PacketsInDistinct(outbox[..|outbox| - 1], from, to);
      PacketsInMembers(outbox[..|outbox| - 1], from, to);
    }
  }

  lemma PullConserves(cfg: Config, s: State)
    requires cfg.kind.Aleo? && Conserved(cfg, s) && CursorOk(cfg, s.chain, s.matured, s.cursor)
    ensures Conserved(cfg, Feeding(cfg, s))
  {
  }

  lemma ScanCounts(outbox: seq<nat>, from: nat, upTo: int, p: Rec)
    ensures Jobs(PacketsIn(outbox, from, upTo))[Job(p, false)] ==
            One(1 <= p.number <= |outbox| && p.height == outbox[p.number - 1] && from <= p.height <= upTo)
  {
    var pkts := PacketsIn(outbox, from, upTo);
    assert Jobs(pkts)[Job(p, false)] == One(p in pkts) by {
      PacketsInDistinct(outbox, from, upTo);
      JobsCount(pkts);
    }
    PacketsInMembers(outbox, from, upTo);
  }

  // A scan puts one copy of each packet of its blocks in memory.
  lemma ScanCopies(s: State, t: State, from: nat, upTo: int, n: nat)
    requires OnChain(s.chain, n)
    requires t == s.(inFlight := s.inFlight + Jobs(PacketsIn(s.chain.outbox, from, upTo)), cursor := t.cursor)
    ensures Copies(t, n) == Copies(s, n) + One(from <= PacketAt(s.chain, n).height <= upTo)
  {
    ScanCounts(s.chain.outbox, from, upTo, PacketAt(s.chain, n));
  }

  lemma ScanConserves(cfg: Config, s: State)
    requires cfg.kind.Ethereum? && Conserved(cfg, s) && cfg.startHeight <= s.cursor
    ensures Conserved(cfg, Feeding(cfg, s))
  {
    if s.cursor <= s.matured {
      var t := Feeding(cfg, s);
      forall n: nat | OnChain(t.chain, n) ensures Copies(t, n) == One(Fed(cfg, t, n)) {
        ScanCopies(s, t, s.cursor, t.cursor - 1, n);
        assert Copies(s, n) == One(Fed(cfg, s, n));
      }
    }
  }

  lemma FeedConserves(cfg: Config, s: State)
    requires Conserved(cfg, s) && CursorOk(cfg, s.chain, s.matured, s.cursor)
    ensures Conserved(cfg, Feeding(cfg, s))
  {
    match cfg.kind
    case Aleo => PullConserves(cfg, s);
    case Ethereum => ScanConserves(cfg, s);
  }

  lemma RetryConserves(cfg: Config, s: State)
    requires Conserved(cfg, s) && Ascending(s.retry)
    ensures Conserved(cfg, Next(cfg, s, Retry))
  {
    var k := Min(RETRY_BATCH, |s.retry|);
    var t := Next(cfg, s, Retry);
    JobsCount(s.retry[..k]);
    forall n: nat | OnChain(t.chain, n) ensures Copies(t, n) == Copies(s, n) {
      var p := PacketAt(s.chain, n);
      assert One(p in s.retry) == One(p in s.retry[..k]) + One(p in s.retry[k..]) by {
        assert s.retry == s.retry[..k] + s.retry[k..];
        assert forall i, j | 0 <= i < k <= j < |s.retry| :: s.retry[i].number < s.retry[j].number;
      }
    }
  }

  lemma CompleteConserves(cfg: Config, s: State, step: Step)
    requires JobsOk(cfg, s.chain, s.inFlight) && Conserved(cfg, s)
    requires step.Complete? || step.CompleteUnrecorded?
    ensures Conserved(cfg, Next(cfg, s, step))
  {
    var t := Next(cfg, s, step);
    if step.job in s.inFlight && !step.job.missed {
      assert JobOk(cfg, s.chain, step.job);
      assert Copies(s, step.job.pkt.number) <= 1;
    }
  }

  lemma FailConserves(cfg: Config, s: State, job: Job)
    requires JobsOk(cfg, s.chain, s.inFlight) && Ascending(s.retry) && Conserved(cfg, s)
    ensures Conserved(cfg, Next(cfg, s, Fail(job)))
  {
    var t := Next(cfg, s, Fail(job));
    if job in s.inFlight && !job.missed {
      assert JobOk(cfg, s.chain, job);
      InsertBinds(s.retry, job.pkt);
      forall n: nat | OnChain(t.chain, n) ensures Copies(t, n) == Copies(s, n) {
        assert Copies(s, n) <= 1;
      }
    }
  }

  lemma NewBlockConserves(cfg: Config, s: State, packets: nat)
    requires Sound(cfg, s) && Conserved(cfg, s)
    ensures Conserved(cfg, Next(cfg, s, NewBlock(packets)))
  {
    var t := Next(cfg, s, NewBlock(packets));
    forall n: nat | OnChain(t.chain, n) ensures Copies(t, n) == One(Fed(cfg, t, n)) {
      if OnChain(s.chain, n) {
        assert PacketAt(t.chain, n) == PacketAt(s.chain, n);
        assert Copies(t, n) == Copies(s, n);
      } else {
        assert Job(PacketAt(t.chain, n), false) !in s.inFlight;
        assert Job(PacketAt(t.chain, n), false).pkt !in s.retry by {
          assert forall r | r in s.retry :: JobOk(cfg, s.chain, Job(r, false));
        }
      }
    }
  }

  lemma StepConserves(cfg: Config, s: State, step: Step)
    requires Sound(cfg, s) && Conserved(cfg, s) && Quiet(step)
    ensures Conserved(cfg, Next(cfg, s, step))
  {
    match step
    case NewBlock(packets) => NewBlockConserves(cfg, s, packets);
    case Feed => FeedConserves(cfg, s);
    case Retry => RetryConserves(cfg, s);
    case Complete(_) => CompleteConserves(cfg, s, step);
    case CompleteUnrecorded(_) => CompleteConserves(cfg, s, step);
    case Fail(job) => FailConserves(cfg, s, job);
    case _ =>
  }

  lemma {:induction false} ExecConserves(cfg: Config, s: State, steps: seq<Step>)
    requires Sound(cfg, s) && Conserved(cfg, s)
    requires forall step | step in steps :: Quiet(step)
    ensures Conserved(cfg, Exec(cfg, s, steps))
    decreases |steps|
  {
    if |steps| > 0 {
      StepSound(cfg, s, steps[0]);
      StepConserves(cfg, s, steps[0]);
      ExecConserves(cfg, Next(cfg, s, steps[0]), steps[1..]);
    }
  }

  /** Conservation: whatever pattern of failures the signer and the collector produce, each packet the feeder has
      passed is in memory once, or in the retry namespace, or complete, and in one of these only; no other packet is in
      any of them. */
  lemma FedOnceHeldOnce(cfg: Config, c: Chain, steps: seq<Step>, s: State, n: nat)
    requires Reaches(cfg, c, steps, s)
    requires forall step | step in steps :: Quiet(step)
    requires OnChain(s.chain, n)
    ensures Copies(s, n) == One(Fed(cfg, s, n))
  {
    InitSound(cfg, c);
    ExecConserves(cfg, Init(cfg, c), steps);
  }
}
