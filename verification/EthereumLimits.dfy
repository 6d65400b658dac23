/** Two limits of the Ethereum client, each shown by runs of the pipeline: finality on a chain younger than the wait
    height, and the rest of the last completed packet's block after a restart. */
module EthereumLimits {
  import opened BigEndian
  import opened Invariants
  import opened NothingLost
  import opened Pipeline
  import opened Records
  import opened Runs

  // A run from a fresh attestor, whatever the height of the chain.
  ghost function Run(cfg: Config, c: Chain, steps: seq<Step>): State { Exec(cfg, Init(cfg, c), steps) }

  // ---------- Finality ----------

  // In no run is a packet held before it has waitHeight blocks on top, missed packets aside.
  ghost predicate AlwaysFinal(cfg: Config, c: Chain) {
    forall steps: seq<Step>, job | job in Run(cfg, c, steps).inFlight && !job.missed ::
      job.pkt.height + cfg.waitHeight <= Run(cfg, c, steps).chain.height
  }

  // Reading the height one block too early wraps to the largest uint64.
  lemma WrapsToLargest(cfg: Config)
    requires cfg.kind.Ethereum? && 0 < cfg.waitHeight < U64_LIMIT
    ensures MaturedHeight(cfg, cfg.waitHeight - 1) == U64_LIMIT - 1
  {
  }

  // The height is read at waitHeight - 1, and blocks pass up to the given height.
  lemma ReadTooEarly(cfg: Config, c: Chain, height: nat) returns (steps: seq<Step>)
    requires cfg.kind.Ethereum? && c.height < cfg.waitHeight < U64_LIMIT && cfg.waitHeight <= height + 1
    ensures Run(cfg, c, steps) == Init(cfg, c).(chain := c.(height := height), matured := U64_LIMIT - 1)
  {
    var s := Init(cfg, c);
    var early := Wait(cfg, s, cfg.waitHeight - 1 - c.height);
    var t := Later(s, cfg.waitHeight - 1 - c.height);
    WrapsToLargest(cfg);
    Read(cfg, t);
    var u := t.(matured := U64_LIMIT - 1);
    var late := Wait(cfg, u, height - (cfg.waitHeight - 1));
    ExecAppend(cfg, s, early, [ReadHeight]);
    ExecAppend(cfg, s, early + [ReadHeight], late);
    steps := early + [ReadHeight] + late;
  }

  // A packet sent now is held at once.
  lemma HeldTooEarly(cfg: Config, c: Chain) returns (steps: seq<Step>, job: Job)
    requires cfg.kind.Ethereum? && c.height < cfg.waitHeight < U64_LIMIT && cfg.startHeight < U64_LIMIT
    ensures job in Run(cfg, c, steps).inFlight && !job.missed
    ensures job.pkt.height + cfg.waitHeight > Run(cfg, c, steps).chain.height
  {
    var h := Max(cfg.startHeight, cfg.waitHeight);
    var read := ReadTooEarly(cfg, c, h - 1);
    var s := Run(cfg, c, read);
    Mine(cfg, s, 1);
    var t := Mined(s, 1);
    var n := |c.outbox| + 1;
    assert PacketAt(t.chain, n) == Rec(n, h);
    var scan := ScanUpTo(cfg, t, n);
    ExecAppend(cfg, Init(cfg, c), read, [NewBlock(1)]);
    ExecAppend(cfg, Init(cfg, c), read + [NewBlock(1)], scan);
    steps, job := read + [NewBlock(1)] + scan, Job(Rec(n, h), false);
  }

  /** Finality on Ethereum, exactly: every run signs only final packets if and only if the chain was at least waitHeight
      blocks high when the attestor first started. */
  lemma FinalIffOldChain(cfg: Config, c: Chain)
    requires cfg.kind.Ethereum? && cfg.start >= 1 && ChainOk(c)
    requires cfg.waitHeight < U64_LIMIT && cfg.startHeight < U64_LIMIT
    ensures AlwaysFinal(cfg, c) <==> cfg.waitHeight <= c.height
  {
    if cfg.waitHeight <= c.height {
      forall steps: seq<Step>, job | job in Run(cfg, c, steps).inFlight && !job.missed
        ensures job.pkt.height + cfg.waitHeight <= Run(cfg, c, steps).chain.height
      {
        OnlyFinalPacketsHeld(cfg, c, steps, Run(cfg, c, steps), job);
      }
    } else {
      var steps, job := HeldTooEarly(cfg, c);
    }
  }

  // ---------- The rest of the last block ----------

  // Nothing keeps the packet except its place beside the last record.
  ghost predicate OnlyBesideLast(cfg: Config, s: State, n: nat) {
    && InScope(cfg, s.chain, n)
    && n !in s.completed && !Held(s, n) && !Queued(s, n) && !ToFeed(cfg, s.chain, s.cursor, n) && !InGap(s.base, n)
    && SharesLastBlock(cfg, s.chain, s.base, n)
  }

  // Two packets in a new block, both in memory.
  lemma TwoHeld(cfg: Config, c: Chain) returns (steps: seq<Step>)
    requires cfg.kind.Ethereum? && Max(c.height, cfg.startHeight) + 1 < U64_LIMIT
    ensures var s, n := Run(cfg, c, steps), |c.outbox| + 1;
            && s.base == [] && s.retry == [] && s.completed == {} && OnChain(s.chain, n) && OnChain(s.chain, n + 1)
            && PacketAt(s.chain, n).height == PacketAt(s.chain, n + 1).height >= Max(1, cfg.startHeight)
            && Job(PacketAt(s.chain, n), false) in s.inFlight
  {
    var s := Init(cfg, c);
    var blocks := Max(c.height, cfg.startHeight) - c.height;
    var wait := Wait(cfg, s, blocks);
    var t := Later(s, blocks);
    var grow := Grow(cfg, t, 2);
    var u := Grown(cfg, t, 2);
    var n := |c.outbox| + 1;
    assert PacketAt(u.chain, n).height == PacketAt(u.chain, n + 1).height == t.chain.height + 1;
    var scan := ScanUpTo(cfg, u, n);
    ExecAppend(cfg, s, wait, grow);
    ExecAppend(cfg, s, wait + grow, scan);
    steps := wait + grow + scan;
  }

  // The first completes, and the client restarts.
  lemma CompleteAndRestart(cfg: Config, s: State, n: nat)
    requires cfg.kind.Ethereum? && s.base == [] && s.retry == [] && s.completed == {}
    requires OnChain(s.chain, n) && OnChain(s.chain, n + 1) && Job(PacketAt(s.chain, n), false) in s.inFlight
    requires PacketAt(s.chain, n).height == PacketAt(s.chain, n + 1).height >= Max(1, cfg.startHeight)
    ensures var done := Complete(Job(PacketAt(s.chain, n), false));
            var restart := Crash(PacketAt(s.chain, n).height + 1);
            OnlyBesideLast(cfg, Next(cfg, Next(cfg, s, done), restart), n + 1)
  {
    var pkt := PacketAt(s.chain, n);
    var t := Next(cfg, s, Complete(Job(pkt, false)));
    FirstRecord(pkt);
    assert t.base == [pkt];
  }

  lemma FirstRecord(r: Rec)
    ensures Insert([], r) == [r]
  {
  }

  /** The shortfall is real: on every Ethereum chain, some run leaves an incomplete packet in scope not in memory, not
      queued, not still to be scanned and in no gap, because a packet of the same block was the last one recorded when
      the client restarted. */
  lemma SharedBlockPassedOver(cfg: Config, c: Chain) returns (steps: seq<Step>, n: nat)
    requires cfg.kind.Ethereum? && cfg.start >= 1 && ChainOk(c) && cfg.waitHeight <= c.height
    requires Max(c.height, cfg.startHeight) + 1 < U64_LIMIT
    ensures Reaches(cfg, c, steps, Run(cfg, c, steps)) && OnlyBesideLast(cfg, Run(cfg, c, steps), n)
  {
    var held := TwoHeld(cfg, c);
    var s, m := Run(cfg, c, held), |c.outbox| + 1;
    CompleteAndRestart(cfg, s, m);
    var done := Complete(Job(PacketAt(s.chain, m), false));
    var restart := Crash(PacketAt(s.chain, m).height + 1);
    ExecLast(cfg, Init(cfg, c), held, done);
    ExecLast(cfg, Init(cfg, c), held + [done], restart);
    steps, n := held + [done] + [restart], m + 1;
  }
}
