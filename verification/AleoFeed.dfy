/** The Aleo client's two reading loops (chain/aleo/client.go): feedPacket, which pulls packets by number as they
    mature, and the refetch of a gap in pruneBaseSeqNum; both tied to the pipeline's steps. */
module AleoFeed {
  import opened Pipeline
  import opened Records
  import opened Runs
  import opened Wrappers

  // How a round of pulling ended.
  datatype Outcome = Absent | Immature(height: nat) | Interrupted

  class Feeder {
    const outbox: seq<nat>      // heights of every packet the chain will ever hold
    const waitHeight: int
    const first: nat
    var nextSeqNum: nat
    var availableInHeight: int
    var sent: seq<Rec>

    /** Exactly the packets from the first number up to the next one were sent, in order, once each. */
    ghost predicate Valid() reads this {
      && 1 <= first <= nextSeqNum
      && if nextSeqNum <= |outbox| + 1 then sent == Slice(outbox, first, nextSeqNum) else first == nextSeqNum && sent == []
    }

    // The number to start from: the configured one, the one the store resumes at, or 1.
    constructor (outbox: seq<nat>, waitHeight: int, configured: nat, startSeqNum: nat)
      ensures Valid() && this.outbox == outbox && this.waitHeight == waitHeight && sent == []
      ensures nextSeqNum == first == Max(1, Max(configured, startSeqNum))
    {
      var next := configured;
      if next < startSeqNum { next := startSeqNum; }
      if next == 0 { next := 1; }
      this.outbox, this.waitHeight, this.first := outbox, waitHeight, next;
      nextSeqNum, availableInHeight, sent := next, 1, [];
    }

    /** Pulls packets until one is absent or not yet mature. onChain packets exist meanwhile; answered says which calls
        succeed, and the round is cut short where they run out. */
    method Pull(matured: int, onChain: nat, answered: seq<bool>) returns (outcome: Outcome)
      requires Valid() && onChain <= |outbox|
      modifies this`nextSeqNum, this`availableInHeight, this`sent
      ensures Valid() && old(nextSeqNum) <= nextSeqNum <= Max(old(nextSeqNum), onChain + 1)
      ensures forall n | old(nextSeqNum) - 1 <= n < nextSeqNum - 1 :: outbox[n] <= matured
      ensures outcome == Absent ==> nextSeqNum > onChain && availableInHeight == 0
      ensures outcome.Immature? ==>
                && nextSeqNum <= onChain && outcome.height == outbox[nextSeqNum - 1] > matured
                && availableInHeight == outcome.height
      ensures outcome == Interrupted ==> availableInHeight == old(availableInHeight)
    {
      var i := 0;
      while i < |answered|
        invariant i <= |answered| && Valid() && availableInHeight == old(availableInHeight)
        invariant old(nextSeqNum) <= nextSeqNum <= Max(old(nextSeqNum), onChain + 1)
        invariant forall n | old(nextSeqNum) - 1 <= n < nextSeqNum - 1 :: outbox[n] <= matured
      {
        if answered[i] {
          if nextSeqNum > onChain {
            availableInHeight := 0;
            return Absent;
          }
          var pkt := Rec(nextSeqNum, outbox[nextSeqNum - 1]);
          if pkt.height > matured {
            availableInHeight := pkt.height;
            return Immature(pkt.height);
          }
          SliceGrows(outbox, first, nextSeqNum);
          sent := sent + [pkt];
          nextSeqNum := nextSeqNum + 1;
        }
        i := i + 1;
      }
      outcome := Interrupted;
    }

    /** One round of the outer loop: the height is read twice, before and after the wait, and a matured height of zero
        passes for an error. Every packet sent had waitHeight blocks on top of it at the second reading. */
    method Round(height1: Option<int>, height2: Option<int>, onChain: nat, answered: seq<bool>)
      requires Valid() && onChain <= |outbox|
      modifies this`nextSeqNum, this`availableInHeight, this`sent
      ensures Valid() && old(nextSeqNum) <= nextSeqNum
      ensures nextSeqNum > old(nextSeqNum) ==> height2.Some?
      ensures height1 in {None, Some(waitHeight)} || height2 in {None, Some(waitHeight)} ==>
                nextSeqNum == old(nextSeqNum) && sent == old(sent) && availableInHeight == old(availableInHeight)
      ensures forall n | old(nextSeqNum) - 1 <= n < nextSeqNum - 1 ::
                n < onChain && outbox[n] + waitHeight <= height2.value
    {
      var matured := if height1.Some? then height1.value - waitHeight else 0;
      if matured == 0 { return; }
      matured := if height2.Some? then height2.value - waitHeight else 0;
      if matured == 0 { return; }
      var _ := Pull(matured, onChain, answered);
    }
  }

  // ---------- Refetching a gap ----------

  // The packets numbered from .. to - 1 that could be read.
  function Readable(outbox: seq<nat>, from: nat, upTo: nat, answered: nat -> bool): seq<Rec>
    requires 1 <= from
  {
    if upTo <= from then []
    else Readable(outbox, from, upTo - 1, answered) +
         if upTo - 1 <= |outbox| && answered(upTo - 1) then [Rec(upTo - 1, outbox[upTo - 2])] else []
  }

  lemma {:induction false} ReadableMembers(outbox: seq<nat>, from: nat, upTo: nat, answered: nat -> bool)
    requires 1 <= from
    ensures forall r :: r in Readable(outbox, from, upTo, answered) <==>
                        && from <= r.number < upTo && r.number <= |outbox| && answered(r.number)
                        && r.height == outbox[r.number - 1]
    decreases upTo
  {
    if from < upTo { ReadableMembers(outbox, from, upTo - 1, answered); }
  }

  lemma {:induction false} ReadableAscends(outbox: seq<nat>, from: nat, upTo: nat, answered: nat -> bool)
    requires 1 <= from
    ensures Ascending(Readable(outbox, from, upTo, answered))
    ensures forall i | 0 <= i < |Readable(outbox, from, upTo, answered)| ::
              Readable(outbox, from, upTo, answered)[i].number < upTo
    decreases upTo
  {
    if from < upTo { ReadableAscends(outbox, from, upTo - 1, answered); }
  }

  /** The refetch loop sends exactly the packets from the one below the gap up to the gap's end that it could read, in
      order. A failed call skips its packet and nothing else. */
  method RefetchGap(outbox: seq<nat>, startSeqNum: nat, endSeqNum: nat, answered: nat -> bool) returns (sent: seq<Rec>)
    requires startSeqNum >= 1
    ensures sent == Readable(outbox, startSeqNum, endSeqNum, answered)
    ensures Ascending(sent)
    ensures forall r :: r in sent <==>
                        && startSeqNum <= r.number < endSeqNum && r.number <= |outbox| && answered(r.number)
                        && r.height == outbox[r.number - 1]
  {
    sent := [];
    var i := startSeqNum;
    while i < endSeqNum
      invariant startSeqNum <= i && (i <= endSeqNum || i == startSeqNum)
      invariant sent == Readable(outbox, startSeqNum, i, answered)
    {
      if i <= |outbox| && answered(i) {
        sent := sent + [Rec(i, outbox[i - 1])];
      }
      i := i + 1;
    }
    ReadableMembers(outbox, startSeqNum, endSeqNum, answered);
    ReadableAscends(outbox, startSeqNum, endSeqNum, answered);
  }

  /** With every call answered, the whole gap is sent, and the completed packet below it once more. */
  lemma {:induction false} WholeGapReadable(outbox: seq<nat>, from: nat, upTo: nat, answered: nat -> bool)
    requires 1 <= from <= upTo <= |outbox| + 1
    requires forall n | from <= n < upTo :: answered(n)
    ensures Readable(outbox, from, upTo, answered) == Slice(outbox, from, upTo)
    decreases upTo
  {
    if from < upTo {
      WholeGapReadable(outbox, from, upTo - 1, answered);
      SliceGrows(outbox, from, upTo - 1);
    }
  }

  // ---------- As steps of the pipeline ----------

  lemma FeedStep(cfg: Config, s: State)
    requires cfg.kind.Aleo? && OnChain(s.chain, s.cursor) && PacketAt(s.chain, s.cursor).height <= s.matured
    ensures Next(cfg, s, Feed) ==
            s.(inFlight := s.inFlight + multiset{Job(PacketAt(s.chain, s.cursor), false)}, cursor := s.cursor + 1)
  {
  }

  function Feeds(k: nat): seq<Step> {
    if k == 0 then [] else Feeds(k - 1) + [Feed]
  }

  lemma PullOneMore(cfg: Config, s: State, upTo: nat)
    requires cfg.kind.Aleo? && 1 <= s.cursor <= upTo <= |s.chain.outbox| && s.chain.outbox[upTo - 1] <= s.matured
    requires Exec(cfg, s, Feeds(upTo - s.cursor)) ==
             s.(inFlight := s.inFlight + Jobs(Slice(s.chain.outbox, s.cursor, upTo)), cursor := upTo)
    ensures Exec(cfg, s, Feeds(upTo + 1 - s.cursor)) ==
            s.(inFlight := s.inFlight + Jobs(Slice(s.chain.outbox, s.cursor, upTo + 1)), cursor := upTo + 1)
  {
    var pkts := Slice(s.chain.outbox, s.cursor, upTo);
    ExecLast(cfg, s, Feeds(upTo - s.cursor), Feed);
    FeedStep(cfg, s.(inFlight := s.inFlight + Jobs(pkts), cursor := upTo));
    SliceGrows(s.chain.outbox, s.cursor, upTo);
    OneMore(s.inFlight, pkts, PacketAt(s.chain, upTo));
  }

  /** What Pull sends is what as many Feed steps put in memory. */
  lemma {:induction false} PullIsFeeds(cfg: Config, s: State, upTo: nat)
    requires cfg.kind.Aleo? && 1 <= s.cursor <= upTo <= |s.chain.outbox| + 1
    requires forall n | s.cursor - 1 <= n < upTo - 1 :: s.chain.outbox[n] <= s.matured
    ensures Exec(cfg, s, Feeds(upTo - s.cursor)) ==
            s.(inFlight := s.inFlight + Jobs(Slice(s.chain.outbox, s.cursor, upTo)), cursor := upTo)
    decreases upTo
  {
    if s.cursor == upTo {
      assert Slice(s.chain.outbox, upTo, upTo) == [];
      assert s.inFlight + multiset{} == s.inFlight;
    } else {
      PullIsFeeds(cfg, s, upTo - 1);
      PullOneMore(cfg, s, upTo - 1);
    }
  }

  // One refetch step per number asked for: it succeeds or fails as the call does.
  function RefetchSteps(from: nat, upTo: nat, answered: nat -> bool): seq<Step> {
    if upTo <= from then [] else RefetchSteps(from, upTo - 1, answered) + [if answered(upTo - 1) then Refetch else RefetchFails]
  }

  lemma RefetchStep(cfg: Config, s: State, ok: bool)
    requires cfg.kind.Aleo? && s.pruner.Refetching? && s.pruner.at < s.pruner.end && OnChain(s.chain, s.pruner.at)
    ensures Next(cfg, s, if ok then Refetch else RefetchFails) ==
            s.(inFlight := if ok then s.inFlight + multiset{Job(PacketAt(s.chain, s.pruner.at), false)} else s.inFlight,
               pruner := Refetching(s.pruner.at + 1, s.pruner.end))
  {
  }

  lemma RefetchNothing(cfg: Config, s: State, answered: nat -> bool)
    requires s.pruner.Refetching? && s.pruner.at >= 1
    ensures var at := s.pruner.at;
            Exec(cfg, s, RefetchSteps(at, at, answered)) ==
            s.(inFlight := s.inFlight + Jobs(Readable(s.chain.outbox, at, at, answered)),
               pruner := Refetching(at, s.pruner.end))
  {
    assert s.inFlight + multiset{} == s.inFlight;
  }

  lemma ReadableGrows(outbox: seq<nat>, from: nat, upTo: nat, answered: nat -> bool)
    requires 1 <= from <= upTo <= |outbox|
    ensures Readable(outbox, from, upTo + 1, answered) ==
            if answered(upTo) then Readable(outbox, from, upTo, answered) + [Rec(upTo, outbox[upTo - 1])]
            else Readable(outbox, from, upTo, answered)
  {
    assert Readable(outbox, from, upTo, answered) + [] == Readable(outbox, from, upTo, answered);
  }

  lemma RefetchOneMore(cfg: Config, s: State, upTo: nat, answered: nat -> bool)
    requires cfg.kind.Aleo? && s.pruner.Refetching?
    requires 1 <= s.pruner.at <= upTo < s.pruner.end <= |s.chain.outbox| + 1
    requires Exec(cfg, s, RefetchSteps(s.pruner.at, upTo, answered)) ==
             s.(inFlight := s.inFlight + Jobs(Readable(s.chain.outbox, s.pruner.at, upTo, answered)),
                pruner := Refetching(upTo, s.pruner.end))
    ensures Exec(cfg, s, RefetchSteps(s.pruner.at, upTo + 1, answered)) ==
            s.(inFlight := s.inFlight + Jobs(Readable(s.chain.outbox, s.pruner.at, upTo + 1, answered)),
               pruner := Refetching(upTo + 1, s.pruner.end))
  {
    var at, ok := s.pruner.at, answered(upTo);
    var pkts := Readable(s.chain.outbox, at, upTo, answered);
    var t := s.(inFlight := s.inFlight + Jobs(pkts), pruner := Refetching(upTo, s.pruner.end));
    assert RefetchSteps(at, upTo + 1, answered) ==
           RefetchSteps(at, upTo, answered) + [if ok then Refetch else RefetchFails];
    ExecLast(cfg, s, RefetchSteps(at, upTo, answered), if ok then Refetch else RefetchFails);
    RefetchStep(cfg, t, ok);
    ReadableGrows(s.chain.outbox, at, upTo, answered);
    OneMore(s.inFlight, pkts, PacketAt(s.chain, upTo));
  }

  /** What RefetchGap sends is what the pruner's Refetch steps put in memory. */
  lemma {:induction false} RefetchIsSteps(cfg: Config, s: State, upTo: nat, answered: nat -> bool)
    requires cfg.kind.Aleo? && s.pruner.Refetching?
    requires 1 <= s.pruner.at <= upTo <= s.pruner.end <= |s.chain.outbox| + 1
    ensures Exec(cfg, s, RefetchSteps(s.pruner.at, upTo, answered)) ==
            s.(inFlight := s.inFlight + Jobs(Readable(s.chain.outbox, s.pruner.at, upTo, answered)),
               pruner := Refetching(upTo, s.pruner.end))
    decreases upTo
  {
    if s.pruner.at == upTo {
      RefetchNothing(cfg, s, answered);
    } else {
      RefetchIsSteps(cfg, s, upTo - 1, answered);
      RefetchOneMore(cfg, s, upTo - 1, answered);
    }
  }
}
