/** The packet pipeline of one source chain towards one destination, as a state machine.

    The parts run concurrently and share only the store and the channels, so every transaction and every hand-over
    is one step and a run is any sequence of steps. A step whose guard does not hold leaves the state as it is. */
module Pipeline {
  import opened BigEndian
  import opened Prune
  import opened Records
  import opened Wrappers

  // Aleo feeds by sequence number, Ethereum by block height.
  datatype Kind = Aleo | Ethereum

  // start: the first sequence number in scope (at least 1). startHeight: the first block in scope.
  datatype Config = Config(kind: Kind, start: nat, startHeight: nat, waitHeight: nat)

  // A packet held in memory by a feeder or a worker. Missed packets come from the collector's queue.
  datatype Job = Job(pkt: Rec, missed: bool)

  /** The pruner: idle, deleting what its snapshot superseded (anchor is the run's kept key), or refetching a gap. */
  datatype Pruner =
    | Idle
    | Deleting(pending: set<nat>, anchor: nat, gap: Option<Gap>)
    | Refetching(at: nat, end: nat)

  // outbox: heights of the packets sent so far, packet n at index n - 1. height: the current block height.
  datatype Chain = Chain(outbox: seq<nat>, height: nat)

  datatype State = State(
    chain: Chain,           // the source chain
    matured: int,           // the matured height the feeder last read
    cursor: nat,            // Aleo: next sequence number; Ethereum: next block height
    inFlight: multiset<Job>,
    retry: seq<Rec>,        // the retry namespace
    base: seq<Rec>,         // the base sequence-number namespace
    pruner: Pruner,
    completed: set<nat>,    // every sequence number ever reported complete
    recorded: set<nat>)     // those whose record reached the base namespace

  datatype Step =
    | NewBlock(packets: nat)
    | ReadHeight
    | Feed
    | FeedMissed(number: nat)
    | Complete(job: Job)
    | CompleteUnrecorded(job: Job)   // the write to the base namespace failed
    | Fail(job: Job)
    | Retry
    | Snapshot
    | DeleteOne(key: nat)
    | DeleteFails(key: nat)
    | DeletesDone
    | Refetch
    | RefetchFails
    | Crash(otherHeight: nat)        // otherHeight: least resume height of the other destinations

  const RETRY_BATCH: nat := 10
  const SCAN_SPAN: nat := 100

  predicate OnChain(c: Chain, n: nat) { 1 <= n <= |c.outbox| }

  function PacketAt(c: Chain, n: nat): Rec
    requires OnChain(c, n)
  {
    Rec(n, c.outbox[n - 1])
  }

  // The packets of an outbox, numbered from 1.
  function Numbered(outbox: seq<nat>): seq<Rec> {
    seq(|outbox|, i requires 0 <= i < |outbox| => Rec(i + 1, outbox[i]))
  }

  // The packets numbered from .. upTo - 1.
  function Slice(outbox: seq<nat>, from: nat, upTo: nat): seq<Rec>
    requires 1 <= from <= upTo <= |outbox| + 1
  {
    Numbered(outbox)[from - 1..upTo - 1]
  }

  // Aleo stores no height with a completed packet.
  function BaseRecord(cfg: Config, pkt: Rec): Rec {
    if cfg.kind.Aleo? then Rec(pkt.number, 0) else pkt
  }

  // Heights are unsigned on Ethereum and signed on Aleo.
  function MaturedHeight(cfg: Config, height: nat): int {
    if cfg.kind.Ethereum? then (height - cfg.waitHeight) % U64_LIMIT else height - cfg.waitHeight
  }

  // GetStartingSeqNumAndHeight.
  function ResumeSeq(base: seq<Rec>): nat {
    if |base| == 0 then 0 else base[|base| - 1].number + 1
  }

  function ResumeHeight(base: seq<Rec>): nat {
    if |base| == 0 || base[|base| - 1].height == 0 then 0 else base[|base| - 1].height + 1
  }

  function Max(a: nat, b: nat): nat { if a < b then b else a }

  function ResumeCursor(cfg: Config, base: seq<Rec>, otherHeight: nat): nat {
    match cfg.kind
    case Aleo => Max(cfg.start, ResumeSeq(base))
    case Ethereum => Max(cfg.startHeight, Min(otherHeight, ResumeHeight(base)))
  }

  // The packets of the blocks from .. to, in chain order.
  function PacketsIn(outbox: seq<nat>, from: nat, to: int): seq<Rec> {
    if |outbox| == 0 then []
    else
      var n := |outbox|;
      PacketsIn(outbox[..n - 1], from, to) + if from <= outbox[n - 1] <= to then [Rec(n, outbox[n - 1])] else []
  }

  function Jobs(pkts: seq<Rec>): multiset<Job> {
    if |pkts| == 0 then multiset{} else Jobs(pkts[..|pkts| - 1]) + multiset{Job(pkts[|pkts| - 1], false)}
  }

  function Feeding(cfg: Config, s: State): State {
    match cfg.kind
    case Aleo =>
      if OnChain(s.chain, s.cursor) && PacketAt(s.chain, s.cursor).height <= s.matured
      then s.(inFlight := s.inFlight + multiset{Job(PacketAt(s.chain, s.cursor), false)}, cursor := s.cursor + 1)
      else s
    case Ethereum =>
      if s.cursor <= s.matured then
        var to := if s.cursor + SCAN_SPAN < s.matured then s.cursor + SCAN_SPAN else s.matured;
        s.(inFlight := s.inFlight + Jobs(PacketsIn(s.chain.outbox, s.cursor, to)), cursor := to + 1)
      else s
  }

  // The numbers a gap refetch asks for. Aleo begins with the completed packet below the gap.
  function RefetchFrom(cfg: Config, gap: Gap): Pruner {
    Refetching(gap.below.number + if cfg.kind.Aleo? then 0 else 1, gap.above.number)
  }

  ghost function Next(cfg: Config, s: State, step: Step): State {
    match step
    case NewBlock(packets) =>
      var h := s.chain.height + 1;
      s.(chain := Chain(s.chain.outbox + seq(packets, _ => h), h))
    case ReadHeight =>
      var m := MaturedHeight(cfg, s.chain.height);
      if cfg.kind.Aleo? && m == 0 then s else s.(matured := m)
    case Feed => Feeding(cfg, s)
    case FeedMissed(n) =>
      if OnChain(s.chain, n) then s.(inFlight := s.inFlight + multiset{Job(PacketAt(s.chain, n), true)}) else s
    case Complete(job) =>
      if job !in s.inFlight then s
      else if job.missed then s.(inFlight := s.inFlight - multiset{job})
      else s.(inFlight := s.inFlight - multiset{job},
              completed := s.completed + {job.pkt.number},
              recorded := s.recorded + {job.pkt.number},
              base := Insert(s.base, BaseRecord(cfg, job.pkt)))
    case CompleteUnrecorded(job) =>
      if job !in s.inFlight then s
      else if job.missed then s.(inFlight := s.inFlight - multiset{job})
      else s.(inFlight := s.inFlight - multiset{job}, completed := s.completed + {job.pkt.number})
    case Fail(job) =>
      if job !in s.inFlight then s
      else if job.missed then s.(inFlight := s.inFlight - multiset{job})
      else s.(inFlight := s.inFlight - multiset{job}, retry := Insert(s.retry, job.pkt))
    case Retry =>
      var k := Min(RETRY_BATCH, |s.retry|);
      s.(inFlight := s.inFlight + Jobs(s.retry[..k]), retry := s.retry[k..])
    case Snapshot =>
      if !s.pruner.Idle? || |s.base| == 0 then s
      else
        var kept := Pruned(s.base)[0].number;
        s.(pruner := Deleting(set r | r in s.base && r.number < kept :: r.number, kept, FirstGap(s.base)))
    case DeleteOne(key) =>
      if !(s.pruner.Deleting? && key in s.pruner.pending) then s
      else s.(base := Remove(s.base, key), pruner := s.pruner.(pending := s.pruner.pending - {key}))
    case DeleteFails(key) =>
      if !(s.pruner.Deleting? && key in s.pruner.pending) then s
      else s.(pruner := s.pruner.(pending := s.pruner.pending - {key}))
    case DeletesDone =>
      if !(s.pruner.Deleting? && s.pruner.pending == {}) then s
      else s.(pruner := match s.pruner.gap case None => Idle case Some(g) => RefetchFrom(cfg, g))
    case Refetch =>
      if !s.pruner.Refetching? then s
      else if !(s.pruner.at < s.pruner.end && OnChain(s.chain, s.pruner.at)) then s.(pruner := Idle)
      else s.(inFlight := s.inFlight + multiset{Job(PacketAt(s.chain, s.pruner.at), false)},
              pruner := Refetching(s.pruner.at + 1, s.pruner.end))
    case RefetchFails =>
      // Aleo skips the number it could not read; Ethereum gives up the scan.
      if !s.pruner.Refetching? then s
      else if cfg.kind.Aleo? && s.pruner.at < s.pruner.end
      then s.(pruner := Refetching(s.pruner.at + 1, s.pruner.end))
      else s.(pruner := Idle)
    case Crash(otherHeight) =>
      s.(matured := -1, cursor := ResumeCursor(cfg, s.base, otherHeight), inFlight := multiset{}, pruner := Idle)
  }

  ghost function Exec(cfg: Config, s: State, steps: seq<Step>): State
    decreases |steps|
  {
    if |steps| == 0 then s else Exec(cfg, Next(cfg, s, steps[0]), steps[1..])
  }

  // An attestor with an empty store, on the given chain.
  function Init(cfg: Config, chain: Chain): State {
    State(chain, -1, ResumeCursor(cfg, [], 0), multiset{}, [], [], Idle, {}, {})
  }
}
