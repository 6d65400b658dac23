/** Putting runs of the pipeline together, and the runs that bring a given packet into memory. */
module Runs {
  import opened BigEndian
  import opened Invariants
  import opened Pipeline
  import opened Prune
  import opened Records

  lemma {:induction false} ExecAppend(cfg: Config, s: State, a: seq<Step>, b: seq<Step>)
    ensures Exec(cfg, s, a + b) == Exec(cfg, Exec(cfg, s, a), b)
    decreases |a|
  {
    if |a| == 0 {
      assert a + b == b;
    } else {
      assert (a + b)[0] == a[0] && (a + b)[1..] == a[1..] + b;
      ExecAppend(cfg, Next(cfg, s, a[0]), a[1..], b);
    }
  }

  lemma ExecNone(cfg: Config, s: State)
    ensures Exec(cfg, s, []) == s
  {
  }

  lemma ExecOne(cfg: Config, s: State, step: Step)
    ensures Exec(cfg, s, [step]) == Next(cfg, s, step)
  {
    assert [step][1..] == [];
  }

  lemma ExecLast(cfg: Config, s: State, steps: seq<Step>, last: Step)
    ensures Exec(cfg, s, steps + [last]) == Next(cfg, Exec(cfg, s, steps), last)
  {
    ExecAppend(cfg, s, steps, [last]);
    ExecOne(cfg, Exec(cfg, s, steps), last);
  }

  lemma ExecFirst(cfg: Config, s: State, first: Step, rest: seq<Step>)
    ensures Exec(cfg, s, [first] + rest) == Exec(cfg, Next(cfg, s, first), rest)
  {
    ExecAppend(cfg, s, [first], rest);
    ExecOne(cfg, s, first);
  }

  // Empty blocks pass.
  function Later(s: State, blocks: nat): State {
    s.(chain := s.chain.(height := s.chain.height + blocks))
  }

  lemma EmptyBlock(cfg: Config, s: State)
    ensures Next(cfg, s, NewBlock(0)) == Later(s, 1)
  {
    var h := s.chain.height + 1;
    assert s.chain.outbox + seq(0, _ => h) == s.chain.outbox;
  }

  lemma {:induction false} Wait(cfg: Config, s: State, blocks: nat) returns (steps: seq<Step>)
    ensures Exec(cfg, s, steps) == Later(s, blocks)
    ensures forall step | step in steps :: step == NewBlock(0)
    decreases blocks
  {
    if blocks == 0 {
      steps := [];
    } else {
      EmptyBlock(cfg, s);
      var rest := Wait(cfg, Later(s, 1), blocks - 1);
      ExecFirst(cfg, s, NewBlock(0), rest);
      steps := [NewBlock(0)] + rest;
    }
  }

  // A block with packets.
  function Mined(s: State, packets: nat): State {
    var h := s.chain.height + 1;
    s.(chain := Chain(s.chain.outbox + seq(packets, _ => h), h))
  }

  lemma Mine(cfg: Config, s: State, packets: nat)
    ensures Exec(cfg, s, [NewBlock(packets)]) == Mined(s, packets)
  {
    ExecOne(cfg, s, NewBlock(packets));
  }

  lemma Read(cfg: Config, s: State)
    requires MaturedHeight(cfg, s.chain.height) != 0
    ensures Exec(cfg, s, [ReadHeight]) == s.(matured := MaturedHeight(cfg, s.chain.height))
  {
    ExecOne(cfg, s, ReadHeight);
  }

  lemma MineAndWait(cfg: Config, s: State, packets: nat, blocks: nat) returns (steps: seq<Step>)
    ensures Exec(cfg, s, steps) == Later(Mined(s, packets), blocks)
    ensures forall step | step in steps :: step.NewBlock?
  {
    Mine(cfg, s, packets);
    var wait := Wait(cfg, Mined(s, packets), blocks);
    steps := [NewBlock(packets)] + wait;
    ExecAppend(cfg, s, [NewBlock(packets)], wait);
  }

  // A block of packets, the blocks that make it final, and a reading of the height.
  function Grown(cfg: Config, s: State, packets: nat): State {
    Later(Mined(s, packets), cfg.waitHeight).(matured := s.chain.height + 1)
  }

  lemma Grow(cfg: Config, s: State, packets: nat) returns (steps: seq<Step>)
    requires cfg.kind.Ethereum? ==> s.chain.height + 1 < U64_LIMIT
    ensures Exec(cfg, s, steps) == Grown(cfg, s, packets)
    ensures forall step | step in steps :: step.NewBlock? || step.ReadHeight?
  {
    var grow := MineAndWait(cfg, s, packets, cfg.waitHeight);
    var t := Later(Mined(s, packets), cfg.waitHeight);
    assert MaturedHeight(cfg, t.chain.height) == s.chain.height + 1;
    Read(cfg, t);
    steps := grow + [ReadHeight];
    ExecAppend(cfg, s, grow, [ReadHeight]);
  }

  lemma SliceGrows(outbox: seq<nat>, from: nat, upTo: nat)
    requires 1 <= from <= upTo <= |outbox|
    ensures Slice(outbox, from, upTo + 1) == Slice(outbox, from, upTo) + [Rec(upTo, outbox[upTo - 1])]
  {
  }

  lemma {:induction false} JobsAppend(a: seq<Rec>, p: Rec)
    ensures Jobs(a + [p]) == Jobs(a) + multiset{Job(p, false)}
  {
    assert (a + [p])[..|a|] == a;
  }

  lemma OneMore(held: multiset<Job>, pkts: seq<Rec>, p: Rec)
    ensures held + Jobs(pkts) + multiset{Job(p, false)} == held + Jobs(pkts + [p])
  {
    JobsAppend(pkts, p);
  }

  // What feeding leaves alone.
  predicate OnlyFed(s: State, t: State) {
    t.chain == s.chain && t.base == s.base && t.completed == s.completed && t.pruner == s.pruner && t.retry == s.retry
  }

  // All packets of the block of packet n are in memory.
  ghost predicate BlockHeld(s: State, n: nat)
    requires OnChain(s.chain, n)
  {
    forall m: nat | OnChain(s.chain, m) && PacketAt(s.chain, m).height == PacketAt(s.chain, n).height ::
      Job(PacketAt(s.chain, m), false) in s.inFlight
  }

  lemma {:induction false} PullUpTo(cfg: Config, s: State, n: nat) returns (steps: seq<Step>)
    requires cfg.kind.Aleo? && 1 <= s.cursor <= n && OnChain(s.chain, n)
    requires forall m | s.cursor <= m <= n :: OnChain(s.chain, m) && PacketAt(s.chain, m).height <= s.matured
    ensures OnlyFed(s, Exec(cfg, s, steps)) && Job(PacketAt(s.chain, n), false) in Exec(cfg, s, steps).inFlight
    ensures forall step | step in steps :: step == Feed
    decreases n - s.cursor
  {
    var t := Next(cfg, s, Feed);
    assert OnChain(s.chain, s.cursor) && PacketAt(s.chain, s.cursor).height <= s.matured;
    if s.cursor == n {
      steps := [Feed];
      ExecOne(cfg, s, Feed);
    } else {
      var rest := PullUpTo(cfg, t, n);
      ExecFirst(cfg, s, Feed, rest);
      steps := [Feed] + rest;
    }
  }

  // The jobs a scan of some blocks puts in memory hold every packet of each of them.
  lemma ScanHoldsBlock(c: Chain, from: nat, upTo: int, height: nat)
    requires from <= height <= upTo
    ensures forall m: nat | OnChain(c, m) && PacketAt(c, m).height == height ::
              Job(PacketAt(c, m), false) in Jobs(PacketsIn(c.outbox, from, upTo))
  {
    PacketsInMembers(c.outbox, from, upTo);
    JobsMembers(PacketsIn(c.outbox, from, upTo));
  }

  lemma ScanStep(cfg: Config, s: State, n: nat)
    requires cfg.kind.Ethereum? && OnChain(s.chain, n) && s.cursor <= PacketAt(s.chain, n).height <= s.matured
    ensures var t := Feeding(cfg, s);
            && OnlyFed(s, t) && t.matured == s.matured && t.cursor > s.cursor
            && (PacketAt(s.chain, n).height < t.cursor ==> BlockHeld(t, n))
  {
    var t := Feeding(cfg, s);
    if PacketAt(s.chain, n).height < t.cursor {
      ScanHoldsBlock(s.chain, s.cursor, t.cursor - 1, PacketAt(s.chain, n).height);
    }
  }

  lemma {:induction false} ScanUpTo(cfg: Config, s: State, n: nat) returns (steps: seq<Step>)
    requires cfg.kind.Ethereum? && OnChain(s.chain, n) && s.cursor <= PacketAt(s.chain, n).height <= s.matured
    ensures OnlyFed(s, Exec(cfg, s, steps)) && BlockHeld(Exec(cfg, s, steps), n)
    ensures forall step | step in steps :: step == Feed
    decreases PacketAt(s.chain, n).height - s.cursor
  {
    var t := Feeding(cfg, s);
    ScanStep(cfg, s, n);
    assert Next(cfg, s, Feed) == t;
    if PacketAt(s.chain, n).height < t.cursor {
      steps := [Feed];
      ExecOne(cfg, s, Feed);
    } else {
      var rest := ScanUpTo(cfg, t, n);
      ExecFirst(cfg, s, Feed, rest);
      steps := [Feed] + rest;
    }
  }

  // Either feeder.
  lemma FeedUpTo(cfg: Config, s: State, n: nat) returns (steps: seq<Step>)
    requires OnChain(s.chain, n)
    requires cfg.kind.Aleo? ==>
               && 1 <= s.cursor <= n
               && forall m | s.cursor <= m <= n :: OnChain(s.chain, m) && PacketAt(s.chain, m).height <= s.matured
    requires cfg.kind.Ethereum? ==> s.cursor <= PacketAt(s.chain, n).height <= s.matured
    ensures OnlyFed(s, Exec(cfg, s, steps)) && Job(PacketAt(s.chain, n), false) in Exec(cfg, s, steps).inFlight
    ensures forall step | step in steps :: step == Feed
  {
    match cfg.kind
    case Aleo => steps := PullUpTo(cfg, s, n);
    case Ethereum => steps := ScanUpTo(cfg, s, n);
  }
}
