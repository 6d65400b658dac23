/** The Ethereum client's two log scans (chain/ethereum/client.go): the feeder's windowed scan of matured blocks and
    the pruner's scan of the blocks around a gap. Filter calls may fail at any point. */
module EthereumScan {
  import opened BigEndian
  import opened Pipeline
  import opened Prune
  import opened Records
  import opened Wrappers

  // A packet-dispatched event. The packet's height is that of its block.
  datatype Log = Log(block: nat, dest: nat, number: nat)

  // Events in chain order, those for one destination with ascending sequence numbers.
  ghost predicate ChainOrder(logs: seq<Log>) {
    forall i, j | 0 <= i < j < |logs| ::
      logs[i].block <= logs[j].block && (logs[i].dest == logs[j].dest ==> logs[i].number < logs[j].number)
  }

  // filterPacketLogs: the events of blocks from .. to, both included.
  function InBlocks(logs: seq<Log>, from: int, to: int): seq<Log> {
    if |logs| == 0 then []
    else
      var n := |logs| - 1;
      InBlocks(logs[..n], from, to) + if from <= logs[n].block <= to then [logs[n]] else []
  }

  function Supported(logs: seq<Log>, dests: set<nat>): seq<Log> {
    if |logs| == 0 then []
    else
      var n := |logs| - 1;
      Supported(logs[..n], dests) + if logs[n].dest in dests then [logs[n]] else []
  }

  // The events for a destination strictly between two sequence numbers.
  predicate Within(l: Log, dest: nat, low: nat, high: nat) {
    l.dest == dest && low < l.number < high
  }

  function Between(logs: seq<Log>, dest: nat, low: nat, high: nat): seq<Log> {
    if |logs| == 0 then []
    else
      var n := |logs| - 1;
      Between(logs[..n], dest, low, high) + if Within(logs[n], dest, low, high) then [logs[n]] else []
  }

  predicate Precedes(a: Log, b: Log) { a.block <= b.block && (a.dest == b.dest ==> a.number < b.number) }

  lemma LastIsLatest(logs: seq<Log>, front: seq<Log>, last: Log)
    requires ChainOrder(logs) && logs == front + [last]
    ensures ChainOrder(front) && forall l | l in front :: Precedes(l, last)
  {
    assert forall i | 0 <= i < |front| :: front[i] == logs[i];
    assert logs[|front|] == last;
    forall l | l in front ensures Precedes(l, last) {
      var i :| 0 <= i < |front| && front[i] == l;
      assert i < |front|;
    }
  }

  lemma LatestKeepsOrder(front: seq<Log>, last: Log)
    requires ChainOrder(front) && forall l | l in front :: Precedes(l, last)
    ensures ChainOrder(front + [last])
  {
    forall i, j | 0 <= i < j < |front| + 1 ensures Precedes((front + [last])[i], (front + [last])[j]) {
      if j == |front| { assert front[i] in front; }
    }
  }

  lemma {:induction false} InBlocksMembers(logs: seq<Log>, from: int, to: int)
    ensures forall l :: l in InBlocks(logs, from, to) <==> l in logs && from <= l.block <= to
  {
    if |logs| > 0 {
      InBlocksMembers(logs[..|logs| - 1], from, to);
      assert logs == logs[..|logs| - 1] + [logs[|logs| - 1]];
    }
  }

  lemma {:induction false} InBlocksOrdered(logs: seq<Log>, from: int, to: int)
    requires ChainOrder(logs)
    ensures ChainOrder(InBlocks(logs, from, to))
    ensures forall l :: l in InBlocks(logs, from, to) <==> l in logs && from <= l.block <= to
  {
    InBlocksMembers(logs, from, to);
    if |logs| > 0 {
      var n := |logs| - 1;
      LastIsLatest(logs, logs[..n], logs[n]);
      InBlocksOrdered(logs[..n], from, to);
      LatestKeepsOrder(InBlocks(logs[..n], from, to), logs[n]);
    }
  }

  lemma {:induction false} NoneInBlocks(logs: seq<Log>, from: int, to: int)
    requires forall l | l in logs :: !(from <= l.block <= to)
    ensures InBlocks(logs, from, to) == []
  {
    if |logs| > 0 {
      NoneInBlocks(logs[..|logs| - 1], from, to);
      assert logs[|logs| - 1] in logs;
    }
  }

  lemma {:induction false} InBlocksSplit(logs: seq<Log>, from: int, mid: int, to: int)
    requires ChainOrder(logs) && from <= mid + 1 <= to + 1
    ensures InBlocks(logs, from, to) == InBlocks(logs, from, mid) + InBlocks(logs, mid + 1, to)
  {
    if |logs| > 0 {
      var n := |logs| - 1;
      InBlocksSplit(logs[..n], from, mid, to);
      if logs[n].block <= mid {
        NoneInBlocks(logs[..n], mid + 1, to);
      }
    }
  }

  lemma {:induction false} SupportedAppend(a: seq<Log>, b: seq<Log>, dests: set<nat>)
    ensures Supported(a + b, dests) == Supported(a, dests) + Supported(b, dests)
  {
    if |b| == 0 {
      assert a + b == a;
    } else {
      var n := |b| - 1;
      SupportedAppend(a, b[..n], dests);
      assert (a + b)[..|a| + n] == a + b[..n] && (a + b)[|a| + n] == b[n];
      var last := if b[n].dest in dests then [b[n]] else [];
      assert Supported(a, dests) + Supported(b[..n], dests) + last == Supported(a, dests) + (Supported(b[..n], dests) + last);
    }
  }

  // An event is supported exactly if its destination is.
  lemma {:induction false} SupportedMembers(logs: seq<Log>, dests: set<nat>)
    ensures forall l :: l in Supported(logs, dests) <==> l in logs && l.dest in dests
  {
    if |logs| > 0 {
      SupportedMembers(logs[..|logs| - 1], dests);
      assert logs == logs[..|logs| - 1] + [logs[|logs| - 1]];
    }
  }

  lemma {:induction false} SupportedOrdered(logs: seq<Log>, dests: set<nat>)
    requires ChainOrder(logs)
    ensures ChainOrder(Supported(logs, dests))
  {
    if |logs| > 0 {
      var n := |logs| - 1;
      SupportedOrdered(logs[..n], dests);
      SupportedMembers(logs[..n], dests);
      LastIsLatest(logs, logs[..n], logs[n]);
      LatestKeepsOrder(Supported(logs[..n], dests), logs[n]);
    }
  }

  lemma {:induction false} BetweenMembers(logs: seq<Log>, dest: nat, low: nat, high: nat)
    ensures forall l :: l in Between(logs, dest, low, high) <==> l in logs && l.dest == dest && low < l.number < high
  {
    if |logs| > 0 {
      BetweenMembers(logs[..|logs| - 1], dest, low, high);
      assert logs == logs[..|logs| - 1] + [logs[|logs| - 1]];
    }
  }

  lemma {:induction false} BetweenOrdered(logs: seq<Log>, dest: nat, low: nat, high: nat)
    requires ChainOrder(logs)
    ensures ChainOrder(Between(logs, dest, low, high))
  {
    if |logs| > 0 {
      var n := |logs| - 1;
      BetweenOrdered(logs[..n], dest, low, high);
      BetweenMembers(logs[..n], dest, low, high);
      LastIsLatest(logs, logs[..n], logs[n]);
      LatestKeepsOrder(Between(logs[..n], dest, low, high), logs[n]);
    }
  }

  lemma {:induction false} BetweenAppend(a: seq<Log>, b: seq<Log>, dest: nat, low: nat, high: nat)
    ensures Between(a + b, dest, low, high) == Between(a, dest, low, high) + Between(b, dest, low, high)
  {
    if |b| == 0 {
      assert a + b == a;
    } else {
      var n := |b| - 1;
      BetweenAppend(a, b[..n], dest, low, high);
      assert (a + b)[..|a| + n] == a + b[..n] && (a + b)[|a| + n] == b[n];
    }
  }

  // Restricting to blocks that hold every event sought changes nothing.
  lemma {:induction false} BetweenInBlocks(logs: seq<Log>, from: int, to: int, dest: nat, low: nat, high: nat)
    requires forall l | l in logs && Within(l, dest, low, high) :: from <= l.block <= to
    ensures Between(InBlocks(logs, from, to), dest, low, high) == Between(logs, dest, low, high)
  {
    if |logs| > 0 {
      var n := |logs| - 1;
      BetweenInBlocks(logs[..n], from, to, dest, low, high);
      assert logs[n] in logs;
      BetweenAppend(InBlocks(logs[..n], from, to), [logs[n]], dest, low, high);
      assert Between([logs[n]], dest, low, high) == if Within(logs[n], dest, low, high) then [logs[n]] else [];
      assert InBlocks(logs[..n], from, to) + [] == InBlocks(logs[..n], from, to);
    }
  }

  // ---------- The feeder ----------

  /** Where the feeder starts: the least starting height of the destinations, unless the configured one is above it. */
  method ResumeAt(configured: U64, startHeights: seq<U64>) returns (first: U64)
    ensures configured <= first
    ensures forall h | h in startHeights :: first <= Max(configured, h)
    ensures |startHeights| > 0 ==> first == configured || first in startHeights
  {
    var baseHeight: U64 := U64_LIMIT - 1;
    var i := 0;
    while i < |startHeights|
      invariant i <= |startHeights|
      invariant forall j | 0 <= j < i :: baseHeight <= startHeights[j]
      invariant if i == 0 then baseHeight == U64_LIMIT - 1 else baseHeight in startHeights
    {
      assert startHeights[i] in startHeights;
      if startHeights[i] < baseHeight { baseHeight := startHeights[i]; }
      i := i + 1;
    }
    first := if configured < baseHeight then baseHeight else configured;
  }

  lemma ScannedExactly(chain: seq<Log>, from: nat, to: int, dests: set<nat>)
    requires ChainOrder(chain)
    ensures var scanned := Supported(InBlocks(chain, from, to), dests);
            ChainOrder(scanned) && forall l :: l in scanned <==> l in chain && from <= l.block <= to && l.dest in dests
  {
    InBlocksOrdered(chain, from, to);
    SupportedMembers(InBlocks(chain, from, to), dests);
    SupportedOrdered(InBlocks(chain, from, to), dests);
  }

  lemma ScanExtends(chain: seq<Log>, from: nat, next: nat, to: nat, dests: set<nat>)
    requires ChainOrder(chain) && from <= next <= to
    ensures Supported(InBlocks(chain, from, to), dests) ==
            Supported(InBlocks(chain, from, next - 1), dests) + Supported(InBlocks(chain, next, to), dests)
  {
    InBlocksSplit(chain, from, next - 1, to);
    SupportedAppend(InBlocks(chain, from, next - 1), InBlocks(chain, next, to), dests);
  }

  class Feeder {
    const chain: seq<Log>       // every event the chain will ever hold
    const dests: set<nat>
    const waitHeight: nat
    const firstBlock: nat
    var nextBlockHeight: nat
    var sent: seq<Log>          // what was put on the channel

    /** Exactly the supported events of blocks firstBlock up to the next one to scan were sent, in order, once each. */
    ghost predicate Valid() reads this {
      && ChainOrder(chain) && firstBlock <= nextBlockHeight
      && sent == Supported(InBlocks(chain, firstBlock, nextBlockHeight - 1), dests)
    }

    constructor (chain: seq<Log>, dests: set<nat>, waitHeight: nat, firstBlock: nat)
      requires ChainOrder(chain)
      ensures Valid() && nextBlockHeight == firstBlock && sent == []
      ensures this.chain == chain && this.dests == dests && this.waitHeight == waitHeight
    {
      this.chain, this.dests, this.waitHeight, this.firstBlock := chain, dests, waitHeight, firstBlock;
      nextBlockHeight, sent := firstBlock, [];
      new;
      NoneInBlocks(chain, firstBlock, firstBlock - 1);
    }

    // What was sent, said of each event: in order and once each, those of a supported destination in the blocks passed.
    lemma SentExactly()
      requires Valid()
      ensures ChainOrder(sent)
      ensures forall l :: l in sent <==> l in chain && firstBlock <= l.block < nextBlockHeight && l.dest in dests
    {
      ScannedExactly(chain, firstBlock, nextBlockHeight - 1, dests);
    }

    method SendSupported(pkts: seq<Log>)
      modifies this`sent
      ensures sent == old(sent) + Supported(pkts, dests)
    {
      var i := 0;
      while i < |pkts|
        invariant i <= |pkts| && sent == old(sent) + Supported(pkts[..i], dests)
      {
        assert pkts[..i + 1][..i] == pkts[..i];
        if pkts[i].dest in dests {
          sent := sent + [pkts[i]];
        }
        i := i + 1;
      }
      assert pkts[..i] == pkts;
    }

    // One successful filter call and what is made of its events.
    method SendWindow(endHeight: nat)
      requires Valid() && nextBlockHeight <= endHeight
      modifies this`sent, this`nextBlockHeight
      ensures Valid() && nextBlockHeight == endHeight + 1
    {
      ScanExtends(chain, firstBlock, nextBlockHeight, endHeight, dests);
      SendSupported(InBlocks(chain, nextBlockHeight, endHeight));
      nextBlockHeight := endHeight + 1;
    }

    /** Scans up to the matured height in windows of 101 blocks, each one filter call; false after a filter error. */
    method ScanTo(matured: nat, filterOk: nat -> bool) returns (ok: bool, ghost calls: nat)
      requires Valid() && matured + SCAN_SPAN + 1 < U64_LIMIT
      modifies this`sent, this`nextBlockHeight
      ensures Valid() && old(nextBlockHeight) <= nextBlockHeight
      ensures nextBlockHeight <= Max(old(nextBlockHeight), matured + 1)
      ensures ok ==> matured < nextBlockHeight
      ensures nextBlockHeight == Min(old(nextBlockHeight) + 101 * calls, Max(old(nextBlockHeight), matured + 1))
      ensures !ok ==> !filterOk(calls)
      ensures ChainOrder(sent)
      ensures forall l :: l in sent <==> l in chain && firstBlock <= l.block < nextBlockHeight && l.dest in dests
    {
      var call := 0;
      while nextBlockHeight <= matured
        invariant Valid() && old(nextBlockHeight) <= nextBlockHeight <= Max(old(nextBlockHeight), matured + 1)
        invariant nextBlockHeight == Min(old(nextBlockHeight) + 101 * call, Max(old(nextBlockHeight), matured + 1))
      {
        var endHeight := nextBlockHeight + SCAN_SPAN;
        if endHeight > matured { endHeight := matured; }
        if !filterOk(call) {
          SentExactly();
          return false, call;
        }
        SendWindow(endHeight);
        call := call + 1;
      }
      SentExactly();
      ok, calls := true, call;
    }

    /** One tick: the height is read again after every completed scan, until it is behind the next block or a call fails.
        heights are the node's answers, and the tick ends when they run out; filterOk says which filter calls succeed. */
    method Tick(heights: seq<Option<nat>>, filterOk: (nat, nat) -> bool)
      requires Valid()
      requires forall h | h in heights && h.Some? :: waitHeight <= h.value && h.value + SCAN_SPAN + 1 < U64_LIMIT
      modifies this`sent, this`nextBlockHeight
      ensures Valid() && old(nextBlockHeight) <= nextBlockHeight
      ensures nextBlockHeight > old(nextBlockHeight) ==>
                exists h :: h in heights && h.Some? && nextBlockHeight - 1 + waitHeight <= h.value
      ensures ChainOrder(sent)
      ensures forall l :: l in sent <==> l in chain && firstBlock <= l.block < nextBlockHeight && l.dest in dests
    {
      SentExactly();
      var i := 0;
      while i < |heights|
        invariant i <= |heights| && Valid() && old(nextBlockHeight) <= nextBlockHeight
        invariant ChainOrder(sent)
        invariant forall l :: l in sent <==> l in chain && firstBlock <= l.block < nextBlockHeight && l.dest in dests
        invariant nextBlockHeight > old(nextBlockHeight) ==>
                    exists h :: h in heights && h.Some? && nextBlockHeight - 1 + waitHeight <= h.value
      {
        var answer := heights[i];
        if answer.None? { return; }
        assert answer in heights;
        var matured := answer.value - waitHeight;
        if matured < nextBlockHeight { return; }
        var round := i;
        var ok, _ := ScanTo(matured, (call: nat) => filterOk(round, call));
        if !ok { return; }
        i := i + 1;
      }
    }
  }

  // ---------- The gap scan ----------

  // The two completions that bound the gap, as the base namespace recorded them.
  ghost predicate GapEnds(logs: seq<Log>, dest: nat, low: Rec, high: Rec) {
    && ChainOrder(logs) && low.number < high.number
    && Log(low.height, dest, low.number) in logs && Log(high.height, dest, high.number) in logs
  }

  lemma EndsEnclose(logs: seq<Log>, dest: nat, low: Rec, high: Rec)
    requires GapEnds(logs, dest, low, high)
    ensures forall l | l in logs && Within(l, dest, low.number, high.number) :: low.height <= l.block <= high.height
  {
    var i :| 0 <= i < |logs| && logs[i] == Log(low.height, dest, low.number);
    var j :| 0 <= j < |logs| && logs[j] == Log(high.height, dest, high.number);
    forall l | l in logs && Within(l, dest, low.number, high.number) ensures low.height <= l.block <= high.height {
      var k :| 0 <= k < |logs| && logs[k] == l;
      assert i < k < j;
    }
  }

  lemma {:induction false} NoneBetween(logs: seq<Log>, dest: nat, low: nat, high: nat)
    requires forall l | l in logs :: !Within(l, dest, low, high)
    ensures Between(logs, dest, low, high) == []
  {
    if |logs| > 0 {
      NoneBetween(logs[..|logs| - 1], dest, low, high);
      assert logs[|logs| - 1] in logs;
    }
  }

  // The packet above the gap is among these events, or none is as far along as it.
  ghost predicate StopInPlace(pkts: seq<Log>, dest: nat, high: nat) {
    (exists h :: h in pkts && h.dest == dest && h.number == high) ||
    (forall l | l in pkts && l.dest == dest :: l.number < high)
  }

  lemma NotPassed(pkts: seq<Log>, i: nat, dest: nat, high: nat)
    requires ChainOrder(pkts) && i < |pkts| && pkts[i].dest == dest && StopInPlace(pkts, dest, high)
    requires forall j | 0 <= j < i && pkts[j].dest == dest :: pkts[j].number < high
    ensures pkts[i].number <= high
  {
    assert pkts[i] in pkts;
    if exists h :: h in pkts && h.dest == dest && h.number == high {
      var h :| h in pkts && h.dest == dest && h.number == high;
      var k :| 0 <= k < |pkts| && pkts[k] == h;
      assert i <= k;
    }
  }

  lemma BetweenStep(pkts: seq<Log>, i: nat, dest: nat, low: nat, high: nat)
    requires i < |pkts|
    ensures Between(pkts[..i + 1], dest, low, high) ==
            Between(pkts[..i], dest, low, high) + if Within(pkts[i], dest, low, high) then [pkts[i]] else []
  {
    assert pkts[..i + 1][..i] == pkts[..i];
  }

  lemma NothingAfterHigh(pkts: seq<Log>, i: nat, dest: nat, low: nat, high: nat)
    requires ChainOrder(pkts) && i < |pkts| && pkts[i].dest == dest && pkts[i].number == high
    ensures Between(pkts, dest, low, high) == Between(pkts[..i], dest, low, high)
  {
    BetweenAppend(pkts[..i], pkts[i..], dest, low, high);
    assert pkts == pkts[..i] + pkts[i..];
    forall l | l in pkts[i..] ensures !Within(l, dest, low, high) {
      var j :| i <= j < |pkts| && pkts[j] == l;
    }
    NoneBetween(pkts[i..], dest, low, high);
  }

  // One window of the gap scan: sends what lies in the gap, and stops at the packet above it.
  method SendGap(pkts: seq<Log>, dest: nat, low: nat, high: nat) returns (sent: seq<Log>, stopped: bool)
    requires ChainOrder(pkts) && low < high && StopInPlace(pkts, dest, high)
    ensures sent == Between(pkts, dest, low, high)
    ensures !stopped ==> forall l | l in pkts && l.dest == dest :: l.number < high
    ensures stopped ==> exists h :: h in pkts && h.dest == dest && h.number == high
  {
    sent, stopped := [], false;
    var i := 0;
    while i < |pkts|
      invariant i <= |pkts| && sent == Between(pkts[..i], dest, low, high)
      invariant forall j | 0 <= j < i && pkts[j].dest == dest :: pkts[j].number < high
    {
      BetweenStep(pkts, i, dest, low, high);
      if pkts[i].dest == dest && low < pkts[i].number {
        NotPassed(pkts, i, dest, high);
        if pkts[i].number == high {
          NothingAfterHigh(pkts, i, dest, low, high);
          assert pkts[i] in pkts;
          return sent, true;
        }
        sent := sent + [pkts[i]];
      }
      i := i + 1;
    }
    assert pkts[..i] == pkts;
  }

  lemma WindowStops(logs: seq<Log>, dest: nat, low: Rec, high: Rec, from: nat, to: nat)
    requires GapEnds(logs, dest, low, high) && to <= high.height
    ensures ChainOrder(InBlocks(logs, from, to)) && StopInPlace(InBlocks(logs, from, to), dest, high.number)
    ensures (exists h :: h in InBlocks(logs, from, to) && h.dest == dest && h.number == high.number) ==> to == high.height
  {
    var pkts := InBlocks(logs, from, to);
    InBlocksOrdered(logs, from, to);
    var e := Log(high.height, dest, high.number);
    var j :| 0 <= j < |logs| && logs[j] == e;
    forall l | l in pkts && l.dest == dest ensures l.number < high.number || e in pkts {
      var k :| 0 <= k < |logs| && logs[k] == l;
    }
    forall h | h in pkts && h.dest == dest && h.number == high.number ensures to == high.height {
      var k :| 0 <= k < |logs| && logs[k] == h;
    }
  }

  // What the gap scan should have sent once it has covered the blocks below s.
  function Covered(logs: seq<Log>, dest: nat, low: Rec, high: Rec, s: int): seq<Log> {
    Between(InBlocks(logs, low.height, s - 1), dest, low.number, high.number)
  }

  lemma CoveredGrows(logs: seq<Log>, dest: nat, low: Rec, high: Rec, s: nat, e: nat)
    requires ChainOrder(logs) && low.height <= s <= e
    ensures Covered(logs, dest, low, high, e + 1) ==
            Covered(logs, dest, low, high, s) + Between(InBlocks(logs, s, e), dest, low.number, high.number)
  {
    InBlocksSplit(logs, low.height, s - 1, e);
    BetweenAppend(InBlocks(logs, low.height, s - 1), InBlocks(logs, s, e), dest, low.number, high.number);
  }

  lemma CoveredEnd(logs: seq<Log>, dest: nat, low: Rec, high: Rec)
    requires GapEnds(logs, dest, low, high)
    ensures Covered(logs, dest, low, high, high.height + 1) == Between(logs, dest, low.number, high.number)
  {
    EndsEnclose(logs, dest, low, high);
    BetweenInBlocks(logs, low.height, high.height, dest, low.number, high.number);
  }

  lemma CoveredIsPrefix(logs: seq<Log>, dest: nat, low: Rec, high: Rec, s: nat)
    requires GapEnds(logs, dest, low, high) && low.height <= s <= high.height + 1
    ensures Covered(logs, dest, low, high, s) <= Between(logs, dest, low.number, high.number)
  {
    var all := Between(logs, dest, low.number, high.number);
    assert Covered(logs, dest, low, high, high.height + 1) == all by { CoveredEnd(logs, dest, low, high); }
    if s <= high.height {
      CoveredGrows(logs, dest, low, high, s, high.height);
    }
  }

  lemma EndsInOrder(logs: seq<Log>, dest: nat, low: Rec, high: Rec)
    requires GapEnds(logs, dest, low, high)
    ensures low.height <= high.height
  {
    var i :| 0 <= i < |logs| && logs[i] == Log(low.height, dest, low.number);
    var j :| 0 <= j < |logs| && logs[j] == Log(high.height, dest, high.number);
  }

  // One successful filter call of the gap scan and what is made of its events.
  method ScanWindow(logs: seq<Log>, dest: nat, low: Rec, high: Rec, s: nat, e: nat)
    returns (part: seq<Log>, stopped: bool)
    requires GapEnds(logs, dest, low, high) && low.height <= s <= e <= high.height
    ensures Covered(logs, dest, low, high, e + 1) == Covered(logs, dest, low, high, s) + part
    ensures stopped ==> e == high.height
  {
    CoveredGrows(logs, dest, low, high, s, e);
    WindowStops(logs, dest, low, high, s, e);
    part, stopped := SendGap(InBlocks(logs, s, e), dest, low.number, high.number);
  }

  /** The gap scan: without a filter error it sends exactly the destination's packets strictly inside the gap, in order
      and once each; with one, a prefix of them. It always ends. */
  method ScanGap(logs: seq<Log>, dest: nat, low: Rec, high: Rec, filterOk: nat -> bool) returns (sent: seq<Log>, ok: bool)
    requires GapEnds(logs, dest, low, high)
    requires high.height + SCAN_SPAN + 1 < U64_LIMIT
    ensures sent <= Between(logs, dest, low.number, high.number)
    ensures ok ==> sent == Between(logs, dest, low.number, high.number)
    ensures ok ==> ChainOrder(sent)
    ensures ok ==> forall l :: l in sent <==> l in logs && l.dest == dest && low.number < l.number < high.number
    ensures !ok ==> exists call :: !filterOk(call)
  {
    EndsInOrder(logs, dest, low, high);
    NoneInBlocks(logs, low.height, low.height - 1);
    sent, ok := [], true;
    var s, calls := low.height, 0;
    while s <= high.height && ok
      invariant low.height <= s <= high.height + 1
      invariant sent == Covered(logs, dest, low, high, s)
      invariant !ok ==> exists call :: !filterOk(call)
      decreases high.height + 1 - s, ok
    {
      var e := s + SCAN_SPAN;
      if e > high.height { e := high.height; }
      if !filterOk(calls) {
        ok := false;
      } else {
        var part, stopped := ScanWindow(logs, dest, low, high, s, e);
        calls, sent, s := calls + 1, sent + part, e + 1;
        if stopped { break; }
      }
    }
    CoveredIsPrefix(logs, dest, low, high, s);
    CoveredEnd(logs, dest, low, high);
    BetweenMembers(logs, dest, low.number, high.number);
    BetweenOrdered(logs, dest, low.number, high.number);
  }

  // ---------- The scans as steps of the pipeline ----------

  function ForDest(logs: seq<Log>, dest: nat): seq<Rec> {
    if |logs| == 0 then []
    else
      var n := |logs| - 1;
      ForDest(logs[..n], dest) + if logs[n].dest == dest then [Rec(logs[n].number, logs[n].block)] else []
  }

  // The chain's events for the destination are the packets of the outbox.
  ghost predicate IsOutbox(logs: seq<Log>, dest: nat, outbox: seq<nat>) {
    ForDest(logs, dest) == Numbered(outbox)
  }

  lemma OutboxFront(logs: seq<Log>, dest: nat, outbox: seq<nat>)
    requires |logs| > 0 && IsOutbox(logs, dest, outbox) && logs[|logs| - 1].dest == dest
    ensures |outbox| > 0
    ensures var n, k := |logs| - 1, |outbox| - 1;
            IsOutbox(logs[..n], dest, outbox[..k]) && Rec(logs[n].number, logs[n].block) == Rec(k + 1, outbox[k])
  {
    var n, k := |logs| - 1, |outbox| - 1;
    assert |ForDest(logs, dest)| == |outbox|;
    assert ForDest(logs, dest)[k] == Rec(k + 1, outbox[k]);
    assert ForDest(logs, dest)[..k] == ForDest(logs[..n], dest);
  }

  lemma ForDestAppend(a: seq<Log>, l: Log, dest: nat)
    ensures ForDest(a + [l], dest) == ForDest(a, dest) + if l.dest == dest then [Rec(l.number, l.block)] else []
  {
    assert (a + [l])[..|a|] == a;
  }

  /** The events the feeder reads for a destination from some blocks are the packets a Feed step takes from them. */
  lemma {:induction false} ScanIsFeed(logs: seq<Log>, dest: nat, outbox: seq<nat>, from: nat, to: int)
    requires IsOutbox(logs, dest, outbox)
    ensures ForDest(InBlocks(logs, from, to), dest) == PacketsIn(outbox, from, to)
    decreases |logs|
  {
    if |logs| > 0 {
      var n, k := |logs| - 1, |outbox| - 1;
      var front := InBlocks(logs[..n], from, to);
      ForDestAppend(front, logs[n], dest);
      assert front + [] == front;
      if logs[n].dest == dest {
        OutboxFront(logs, dest, outbox);
        ScanIsFeed(logs[..n], dest, outbox[..k], from, to);
      } else {
        ScanIsFeed(logs[..n], dest, outbox, from, to);
      }
    } else {
      assert |outbox| == 0;
    }
  }

  // The packets of an outbox strictly between two numbers.
  function Inside(outbox: seq<nat>, low: nat, high: nat): seq<Rec> {
    if |outbox| == 0 then []
    else
      var n := |outbox|;
      Inside(outbox[..n - 1], low, high) + if low < n < high then [Rec(n, outbox[n - 1])] else []
  }

  lemma {:induction false} InsideIsSlice(outbox: seq<nat>, low: nat, high: nat)
    requires low < high
    ensures Inside(outbox, low, high) ==
            Numbered(outbox)[Min(low, |outbox|)..Min(high - 1, |outbox|)]
  {
    if |outbox| > 0 {
      var k := |outbox| - 1;
      var all := Numbered(outbox);
      InsideIsSlice(outbox[..k], low, high);
      assert Numbered(outbox[..k]) == all[..k];
      if low < k + 1 < high {
        assert all[low..k + 1] == all[..k][low..k] + [all[k]];
      } else if high <= k + 1 {
        assert all[..k][Min(low, k)..high - 1] == all[Min(low, k)..high - 1];
      } else {
        assert all[..k][k..k] == [] == all[k + 1..k + 1];
      }
    }
  }

  /** What a complete gap scan sends is every packet a refetch of the gap asks for, in order. */
  lemma {:induction false} GapScanIsRefetch(logs: seq<Log>, dest: nat, outbox: seq<nat>, low: nat, high: nat)
    requires IsOutbox(logs, dest, outbox)
    ensures ForDest(Between(logs, dest, low, high), dest) == Inside(outbox, low, high)
    decreases |logs|
  {
    if |logs| > 0 {
      var n, k := |logs| - 1, |outbox| - 1;
      var front := Between(logs[..n], dest, low, high);
      ForDestAppend(front, logs[n], dest);
      assert front + [] == front;
      if logs[n].dest == dest {
        OutboxFront(logs, dest, outbox);
        GapScanIsRefetch(logs[..n], dest, outbox[..k], low, high);
      } else {
        GapScanIsRefetch(logs[..n], dest, outbox, low, high);
      }
    } else {
      assert |outbox| == 0;
    }
  }

  lemma {:induction false} SupportedKeepsDest(logs: seq<Log>, dests: set<nat>, dest: nat)
    requires dest in dests
    ensures ForDest(Supported(logs, dests), dest) == ForDest(logs, dest)
  {
    if |logs| > 0 {
      var n := |logs| - 1;
      SupportedKeepsDest(logs[..n], dests, dest);
      ForDestAppend(Supported(logs[..n], dests), logs[n], dest);
      assert Supported(logs[..n], dests) + [] == Supported(logs[..n], dests);
    }
  }

  /** A feeder in any state it can reach has fed each supported destination exactly its packets in the blocks passed. */
  lemma FeederFeedsOutbox(f: Feeder, dest: nat, outbox: seq<nat>)
    requires f.Valid() && dest in f.dests && IsOutbox(f.chain, dest, outbox)
    ensures ForDest(f.sent, dest) == PacketsIn(outbox, f.firstBlock, f.nextBlockHeight - 1)
  {
    SupportedKeepsDest(InBlocks(f.chain, f.firstBlock, f.nextBlockHeight - 1), f.dests, dest);
    ScanIsFeed(f.chain, dest, outbox, f.firstBlock, f.nextBlockHeight - 1);
  }
}
