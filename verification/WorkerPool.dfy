/** The bounded worker pool (relay/relays.go) with the channels it blocks on.

    Feeders block until the consumer takes their packet. The consumer puts a token into the guide channel, then takes a
    packet and starts a worker. A worker processes its packet, hands it to the source chain's packet manager over an
    unbuffered channel (missed packets are dropped instead), and gives its token back; after a failure it first stores
    the screening verdict. A manager stores one packet at a time. */
module WorkerPool {
  datatype Packet = Packet(chain: nat, id: nat, missed: bool)

  datatype Place =
    | Offered        // held by a blocked feeder
    | Working        // held by a worker: screened, signed and sent
    | ToRetry        // held by a worker blocked on the chain's retry channel
    | ToComplete     // held by a worker blocked on the chain's completed channel
    | StoringRetry   // held by the chain's manager, writing to the retry namespace
    | StoringDone    // held by the chain's manager, writing to the base namespace
    | Retried | Completed | Dropped

  datatype Slot = Slot(pkt: Packet, place: Place)

  datatype Pool = Pool(
    capacity: nat,      // of the guide channel
    tokens: nat,        // in the guide channel
    hasToken: bool,     // the consumer has put its token in and waits for a packet
    slots: seq<Slot>,   // every packet offered so far, and where it is
    saving: nat,        // workers storing the verdict of a packet they handed to retry
    leaving: nat)       // workers about to take their token back

  // Offer is the world's; every other step is the pipeline's own.
  datatype Step =
    | Offer(pkt: Packet)
    | TakeToken
    | Receive(i: nat)
    | Finish(i: nat, failed: bool)
    | HandOver(i: nat)
    | VerdictSaved
    | Leave
    | Stored(i: nat)

  predicate At(p: Pool, i: nat, place: Place) {
    i < |p.slots| && p.slots[i].place == place
  }

  predicate Storing(place: Place) { place.StoringRetry? || place.StoringDone? }

  // The chain's manager is at its select.
  predicate Ready(p: Pool, chain: nat) {
    forall x | x in p.slots && Storing(x.place) :: x.pkt.chain != chain
  }

  predicate Enabled(p: Pool, step: Step) {
    match step
    case Offer(_) => true
    case TakeToken => !p.hasToken && p.tokens < p.capacity
    case Receive(i) => p.hasToken && At(p, i, Offered)
    case Finish(i, _) => At(p, i, Working)
    case HandOver(i) => (At(p, i, ToRetry) || At(p, i, ToComplete)) && Ready(p, p.slots[i].pkt.chain)
    case VerdictSaved => p.saving > 0
    case Leave => p.leaving > 0 && p.tokens > 0
    case Stored(i) => At(p, i, StoringRetry) || At(p, i, StoringDone)
  }

  function Move(p: Pool, i: nat, place: Place): Pool
    requires i < |p.slots|
  {
    p.(slots := p.slots[i := p.slots[i].(place := place)])
  }

  function Next(p: Pool, step: Step): Pool
    requires Enabled(p, step)
  {
    match step
    case Offer(x) => p.(slots := p.slots + [Slot(x, Offered)])
    case TakeToken => p.(tokens := p.tokens + 1, hasToken := true)
    case Receive(i) => Move(p, i, Working).(hasToken := false)
    case Finish(i, failed) =>
      if p.slots[i].pkt.missed then Move(p, i, Dropped).(leaving := p.leaving + 1)
      else Move(p, i, if failed then ToRetry else ToComplete)
    case HandOver(i) =>
      if p.slots[i].place.ToRetry? then Move(p, i, StoringRetry).(saving := p.saving + 1)
      else Move(p, i, StoringDone).(leaving := p.leaving + 1)
    case VerdictSaved => p.(saving := p.saving - 1, leaving := p.leaving + 1)
    case Leave => p.(leaving := p.leaving - 1, tokens := p.tokens - 1)
    case Stored(i) => Move(p, i, if p.slots[i].place.StoringRetry? then Retried else Completed)
  }

  function Start(capacity: nat): Pool { Pool(capacity, 0, false, [], 0, 0) }

  // The sum of a weight over where the packets are.
  function Sum(slots: seq<Slot>, weight: Place -> nat): nat {
    if |slots| == 0 then 0 else Sum(slots[..|slots| - 1], weight) + weight(slots[|slots| - 1].place)
  }

  lemma {:induction false} SumMove(slots: seq<Slot>, weight: Place -> nat, i: nat, s: Slot)
    requires i < |slots|
    ensures Sum(slots[i := s], weight) + weight(slots[i].place) == Sum(slots, weight) + weight(s.place)
  {
    var n := |slots| - 1;
    if i < n {
      SumMove(slots[..n], weight, i, s);
      assert slots[i := s][..n] == slots[..n][i := s];
    } else {
      assert slots[i := s][..n] == slots[..n];
    }
  }

  // Packets held by workers.
  function OnWorker(place: Place): nat {
    if place.Working? || place.ToRetry? || place.ToComplete? then 1 else 0
  }

  function Workers(p: Pool): nat { Sum(p.slots, OnWorker) + p.saving + p.leaving }

  // One token in the guide channel per worker, and one for a consumer waiting for a packet.
  ghost predicate Valid(p: Pool) {
    && p.tokens == Workers(p) + (if p.hasToken then 1 else 0) <= p.capacity
    && (forall x | x in p.slots :: WellPlaced(x))
  }

  // Processed missed packets are dropped, and no others.
  predicate WellPlaced(x: Slot) {
    !x.place.Offered? && !x.place.Working? ==> (x.place.Dropped? <==> x.pkt.missed)
  }

  lemma MoveValid(p: Pool, i: nat, place: Place)
    requires i < |p.slots| && WellPlaced(p.slots[i].(place := place))
    requires forall x | x in p.slots :: WellPlaced(x)
    ensures var q := Move(p, i, place);
            && Workers(q) + OnWorker(p.slots[i].place) == Workers(p) + OnWorker(place)
            && (forall x | x in q.slots :: WellPlaced(x))
  {
    SumMove(p.slots, OnWorker, i, p.slots[i].(place := place));
  }

  lemma StartValid(capacity: nat)
    ensures Valid(Start(capacity))
  {
  }

  lemma WorkerStepValid(p: Pool, step: Step)
    requires Valid(p) && Enabled(p, step) && (step.Receive? || step.Finish?)
    ensures Valid(Next(p, step))
  {
    assert p.slots[step.i] in p.slots;
    match step
    case Receive(i) => MoveValid(p, i, Working);
    case Finish(i, failed) =>
      MoveValid(p, i, if p.slots[i].pkt.missed then Dropped else if failed then ToRetry else ToComplete);
  }

  lemma ManagerStepValid(p: Pool, step: Step)
    requires Valid(p) && Enabled(p, step) && (step.HandOver? || step.Stored?)
    ensures Valid(Next(p, step))
  {
    assert p.slots[step.i] in p.slots;
    match step
    case HandOver(i) => MoveValid(p, i, if p.slots[i].place.ToRetry? then StoringRetry else StoringDone);
    case Stored(i) => MoveValid(p, i, if p.slots[i].place.StoringRetry? then Retried else Completed);
  }

  /** The workers running never outnumber the guide channel's room, and a leaving worker's receive never blocks. */
  lemma StepValid(p: Pool, step: Step)
    requires Valid(p) && Enabled(p, step)
    ensures Valid(Next(p, step)) && Workers(Next(p, step)) <= p.capacity
    ensures p.leaving > 0 ==> Enabled(p, Leave)
  {
    match step
    case Receive(_) => WorkerStepValid(p, step);
    case Finish(_, _) => WorkerStepValid(p, step);
    case HandOver(_) => ManagerStepValid(p, step);
    case Stored(_) => ManagerStepValid(p, step);
    case _ =>
  }

  // ---------- No circular wait ----------

  // Some part of the pipeline can move on its own.
  ghost predicate CanMove(p: Pool) {
    exists step: Step :: !step.Offer? && Enabled(p, step)
  }

  predicate Final(place: Place) { place.Retried? || place.Completed? || place.Dropped? }

  // A packet or a worker is still under way.
  predicate Busy(p: Pool) {
    p.saving > 0 || p.leaving > 0 || exists x :: x in p.slots && !Final(x.place)
  }

  /** While anything is under way some step is enabled, if at least one worker is allowed: workers wait only for
      managers, managers for nobody, and feeders only for the consumer. */
  lemma BusyCanMove(p: Pool)
    requires Valid(p) && p.capacity >= 1 && Busy(p)
    ensures CanMove(p)
  {
    if p.saving > 0 {
      assert Enabled(p, VerdictSaved);
    } else if p.leaving > 0 {
      assert Enabled(p, Leave);
    } else if i :| 0 <= i < |p.slots| && Storing(p.slots[i].place) {
      assert Enabled(p, Stored(i));
    } else if i :| 0 <= i < |p.slots| && p.slots[i].place == Working {
      assert Enabled(p, Finish(i, true));
    } else if i :| 0 <= i < |p.slots| && (p.slots[i].place == ToRetry || p.slots[i].place == ToComplete) {
      assert Enabled(p, HandOver(i));
    } else {
      var x :| x in p.slots && !Final(x.place);
      var i :| 0 <= i < |p.slots| && p.slots[i] == x;
      NoWorkers(p.slots);
      if p.hasToken { assert Enabled(p, Receive(i)); } else { assert Enabled(p, TakeToken); }
    }
  }

  lemma {:induction false} NoWorkers(slots: seq<Slot>)
    requires forall i | 0 <= i < |slots| :: OnWorker(slots[i].place) == 0
    ensures Sum(slots, OnWorker) == 0
  {
    if |slots| > 0 { NoWorkers(slots[..|slots| - 1]); }
  }

  /** The proviso is exact: the first packet offered to a fresh pool can move exactly if one worker is allowed. */
  lemma FirstPacketMoves(capacity: nat, x: Packet)
    ensures CanMove(Next(Start(capacity), Offer(x))) <==> capacity >= 1
  {
    var p := Next(Start(capacity), Offer(x));
    if capacity >= 1 { assert Enabled(p, TakeToken); }
  }

  // ---------- Everything drains ----------

  // The steps a packet and the worker that carries it can still take.
  function StepsLeft(place: Place): nat {
    match place
    case Offered => 8
    case Working => 5
    case ToRetry => 4
    case ToComplete => 4
    case StoringRetry => 1
    case StoringDone => 1
    case _ => 0
  }

  // An upper bound on the steps left without new offers.
  function Weight(p: Pool): nat {
    Sum(p.slots, StepsLeft) + 2 * p.saving + p.leaving + if p.hasToken then 0 else 1
  }

  lemma MoveLightens(p: Pool, i: nat, place: Place)
    requires i < |p.slots|
    ensures Sum(Move(p, i, place).slots, StepsLeft) + StepsLeft(p.slots[i].place) ==
            Sum(p.slots, StepsLeft) + StepsLeft(place)
  {
    SumMove(p.slots, StepsLeft, i, p.slots[i].(place := place));
  }

  lemma StepLightens(p: Pool, step: Step)
    requires Enabled(p, step) && !step.Offer?
    ensures Weight(Next(p, step)) < Weight(p)
  {
    match step
    case Receive(i) => MoveLightens(p, i, Working);
    case Finish(i, failed) =>
      MoveLightens(p, i, if p.slots[i].pkt.missed then Dropped else if failed then ToRetry else ToComplete);
    case HandOver(i) => MoveLightens(p, i, if p.slots[i].place.ToRetry? then StoringRetry else StoringDone);
    case Stored(i) => MoveLightens(p, i, if p.slots[i].place.StoringRetry? then Retried else Completed);
    case _ =>
  }

  // A run of the pipeline's own steps from p, ending in q.
  ghost predicate Runs(p: Pool, steps: seq<Step>, q: Pool)
    decreases |steps|
  {
    if |steps| == 0 then p == q
    else !steps[0].Offer? && Enabled(p, steps[0]) && Runs(Next(p, steps[0]), steps[1..], q)
  }

  lemma {:induction false} RunsBounded(p: Pool, steps: seq<Step>, q: Pool)
    requires Valid(p) && Runs(p, steps, q)
    ensures Valid(q) && q.capacity == p.capacity && |q.slots| == |p.slots|
    ensures forall i | 0 <= i < |p.slots| :: q.slots[i].pkt == p.slots[i].pkt
    ensures |steps| + Weight(q) <= Weight(p)
    decreases |steps|
  {
    if |steps| > 0 {
      StepValid(p, steps[0]);
      StepLightens(p, steps[0]);
      RunsBounded(Next(p, steps[0]), steps[1..], q);
    }
  }

  /** Every schedule drains the pool: a run of the pipeline's own steps is no longer than the weight of its start, and
      one that can go no further has put every packet in a retry namespace or recorded it complete, the missed ones
      having been processed and dropped. */
  lemma EverythingDrains(p: Pool, steps: seq<Step>, q: Pool)
    requires Valid(p) && p.capacity >= 1 && Runs(p, steps, q)
    ensures |steps| <= Weight(p) && |q.slots| == |p.slots|
    ensures !CanMove(q) ==>
              forall i | 0 <= i < |p.slots| ::
                && q.slots[i].pkt == p.slots[i].pkt
                && if p.slots[i].pkt.missed then q.slots[i].place == Dropped
                   else q.slots[i].place == Retried || q.slots[i].place == Completed
  {
    RunsBounded(p, steps, q);
    if !CanMove(q) {
      if Busy(q) { BusyCanMove(q); }
      forall i | 0 <= i < |p.slots|
        ensures if p.slots[i].pkt.missed then q.slots[i].place == Dropped
                else q.slots[i].place == Retried || q.slots[i].place == Completed
      {
        assert q.slots[i] in q.slots;
      }
    }
  }

  // ---------- Every reachable pool ----------

  // A run with offers at any time, from p to q.
  ghost predicate Reaches(p: Pool, steps: seq<Step>, q: Pool)
    decreases |steps|
  {
    if |steps| == 0 then p == q
    else Enabled(p, steps[0]) && Reaches(Next(p, steps[0]), steps[1..], q)
  }

  lemma {:induction false} ReachesValid(p: Pool, steps: seq<Step>, q: Pool)
    requires Valid(p) && Reaches(p, steps, q)
    ensures Valid(q) && q.capacity == p.capacity
    decreases |steps|
  {
    if |steps| > 0 {
      StepValid(p, steps[0]);
      ReachesValid(Next(p, steps[0]), steps[1..], q);
    }
  }

  // With nothing under way, only the consumer's token can still move.
  lemma IdleMoves(p: Pool)
    requires Valid(p) && p.capacity >= 1 && !Busy(p)
    ensures CanMove(p) <==> !p.hasToken
  {
    assert forall i | 0 <= i < |p.slots| :: p.slots[i] in p.slots && Final(p.slots[i].place);
    if !p.hasToken {
      NoWorkers(p.slots);
      assert Enabled(p, TakeToken);
    }
  }

  /** In every pool a run from the start reaches, whatever is offered and when, the running workers are no more than the
      guide channel holds; and if it holds one at least, some step is enabled exactly while there is something under
      way, or a token to be put in. */
  lemma ReachablePool(capacity: nat, steps: seq<Step>, q: Pool)
    requires Reaches(Start(capacity), steps, q)
    ensures Valid(q) && Workers(q) <= capacity
    ensures capacity >= 1 ==> (CanMove(q) <==> Busy(q) || !q.hasToken)
  {
    StartValid(capacity);
    ReachesValid(Start(capacity), steps, q);
    if capacity >= 1 {
      if Busy(q) {
        BusyCanMove(q);
      } else {
        IdleMoves(q);
      }
    }
  }

  // ---------- Where a packet ends ----------

  predicate Failed(place: Place) { place.ToRetry? || place.StoringRetry? || place.Retried? }

  predicate Succeeded(place: Place) { place.ToComplete? || place.StoringDone? || place.Completed? }

  predicate Waiting(place: Place) { place.Offered? || place.Working? }

  // Once processed, a packet keeps to its side.
  lemma {:induction false} SideKept(p: Pool, steps: seq<Step>, q: Pool, i: nat)
    requires Reaches(p, steps, q) && i < |p.slots| && !Waiting(p.slots[i].place)
    ensures i < |q.slots| && q.slots[i].pkt == p.slots[i].pkt
    ensures Failed(q.slots[i].place) == Failed(p.slots[i].place)
    ensures Succeeded(q.slots[i].place) == Succeeded(p.slots[i].place)
    ensures q.slots[i].place.Dropped? == p.slots[i].place.Dropped? && !Waiting(q.slots[i].place)
    ensures forall failed :: Finish(i, failed) !in steps
    decreases |steps|
  {
    if |steps| > 0 {
      SideKept(Next(p, steps[0]), steps[1..], q, i);
      assert steps == [steps[0]] + steps[1..];
    }
  }

  // What processing made of the packet in slot i.
  predicate Outcome(x: Slot, steps: seq<Step>, i: nat) {
    && (Waiting(x.place) <==> Finish(i, true) !in steps && Finish(i, false) !in steps)
    && (Failed(x.place) <==> Finish(i, true) in steps && !x.pkt.missed)
    && (Succeeded(x.place) <==> Finish(i, false) in steps && !x.pkt.missed)
    && (x.place.Dropped? <==> x.pkt.missed && !Waiting(x.place))
  }

  lemma {:induction false} OutcomeFromWaiting(p: Pool, steps: seq<Step>, q: Pool, i: nat)
    requires Reaches(p, steps, q) && i < |p.slots| && Waiting(p.slots[i].place)
    ensures i < |q.slots| && Outcome(q.slots[i], steps, i)
    decreases |steps|
  {
    if |steps| > 0 {
      var t := Next(p, steps[0]);
      assert steps == [steps[0]] + steps[1..];
      if Waiting(t.slots[i].place) {
        OutcomeFromWaiting(t, steps[1..], q, i);
      } else {
        SideKept(t, steps[1..], q, i);
      }
    }
  }

  lemma {:induction false} OutcomeOfNew(p: Pool, steps: seq<Step>, q: Pool, i: nat)
    requires Reaches(p, steps, q) && |p.slots| <= i < |q.slots|
    ensures Outcome(q.slots[i], steps, i)
    decreases |steps|
  {
    if |steps| > 0 {
      var t := Next(p, steps[0]);
      assert steps == [steps[0]] + steps[1..];
      if i < |t.slots| {
        OutcomeFromWaiting(t, steps[1..], q, i);
      } else {
        OutcomeOfNew(t, steps[1..], q, i);
      }
    }
  }

  /** Where every packet ends, in any run from the start that leaves nothing under way: dropped if it was missed, and
      otherwise in the retry namespace exactly if its processing failed, recorded complete exactly if it did not. */
  lemma RetriedIffFailed(capacity: nat, steps: seq<Step>, q: Pool, i: nat)
    requires Reaches(Start(capacity), steps, q) && !Busy(q) && i < |q.slots|
    ensures q.slots[i].place.Dropped? <==> q.slots[i].pkt.missed
    ensures q.slots[i].place.Retried? <==> !q.slots[i].pkt.missed && Finish(i, true) in steps
    ensures q.slots[i].place.Completed? <==> !q.slots[i].pkt.missed && Finish(i, false) in steps
  {
    OutcomeOfNew(Start(capacity), steps, q, i);
    assert q.slots[i] in q.slots;
  }

  // Packets a manager was handed for retry.
  function HandedToRetry(place: Place): nat { if place.StoringRetry? || place.Retried? then 1 else 0 }

  function Saves(steps: seq<Step>): nat {
    if |steps| == 0 then 0 else (if steps[0].VerdictSaved? then 1 else 0) + Saves(steps[1..])
  }

  lemma StepSaves(p: Pool, step: Step)
    requires Enabled(p, step)
    ensures Sum(Next(p, step).slots, HandedToRetry) + p.saving ==
            Sum(p.slots, HandedToRetry) + Next(p, step).saving + if step.VerdictSaved? then 1 else 0
  {
    match step
    case Offer(x) => assert (p.slots + [Slot(x, Offered)])[..|p.slots|] == p.slots;
    case Receive(i) => SumMove(p.slots, HandedToRetry, i, p.slots[i].(place := Working));
    case Finish(i, failed) =>
      SumMove(p.slots, HandedToRetry, i,
              p.slots[i].(place := if p.slots[i].pkt.missed then Dropped else if failed then ToRetry else ToComplete));
    case HandOver(i) =>
      SumMove(p.slots, HandedToRetry, i,
              p.slots[i].(place := if p.slots[i].place.ToRetry? then StoringRetry else StoringDone));
    case Stored(i) =>
      SumMove(p.slots, HandedToRetry, i,
              p.slots[i].(place := if p.slots[i].place.StoringRetry? then Retried else Completed));
    case _ =>
  }

  lemma {:induction false} SavesCounted(p: Pool, steps: seq<Step>, q: Pool)
    requires Reaches(p, steps, q)
    ensures Sum(q.slots, HandedToRetry) + p.saving == Sum(p.slots, HandedToRetry) + q.saving + Saves(steps)
    decreases |steps|
  {
    if |steps| > 0 {
      StepSaves(p, steps[0]);
      SavesCounted(Next(p, steps[0]), steps[1..], q);
    }
  }

  /** Once nothing is under way, as many verdicts have been saved as packets were handed to retry. */
  lemma OneSavePerRetry(capacity: nat, steps: seq<Step>, q: Pool)
    requires Reaches(Start(capacity), steps, q) && !Busy(q)
    ensures Saves(steps) == Sum(q.slots, (place: Place) => if place.Retried? then 1 else 0)
  {
    SavesCounted(Start(capacity), steps, q);
    RetriedCounted(q.slots);
  }

  lemma {:induction false} RetriedCounted(slots: seq<Slot>)
    requires forall x | x in slots :: Final(x.place)
    ensures Sum(slots, HandedToRetry) == Sum(slots, (place: Place) => if place.Retried? then 1 else 0)
  {
    if |slots| > 0 {
      assert slots[|slots| - 1] in slots;
      RetriedCounted(slots[..|slots| - 1]);
    }
  }

  // ---------- One packet at a time ----------

  // No chain's manager stores two packets at once.
  predicate OneEach(p: Pool) {
    forall i, j | 0 <= i < j < |p.slots| && Storing(p.slots[i].place) && Storing(p.slots[j].place) ::
      p.slots[i].pkt.chain != p.slots[j].pkt.chain
  }

  lemma StepOneEach(p: Pool, step: Step)
    requires OneEach(p) && Enabled(p, step)
    ensures OneEach(Next(p, step))
  {
    if step.HandOver? {
      forall j | 0 <= j < |p.slots| && Storing(p.slots[j].place)
        ensures p.slots[j].pkt.chain != p.slots[step.i].pkt.chain
      {
        assert p.slots[j] in p.slots;
      }
    }
  }

  /** The packet managers work one packet at a time. */
  lemma {:induction false} ManagersTakeTurns(p: Pool, steps: seq<Step>, q: Pool)
    requires OneEach(p) && Reaches(p, steps, q)
    ensures OneEach(q)
    decreases |steps|
  {
    if |steps| > 0 {
      StepOneEach(p, steps[0]);
      ManagersTakeTurns(Next(p, steps[0]), steps[1..], q);
    }
  }
}
