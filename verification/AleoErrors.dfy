/** Exactly when the Aleo packet parser fails, and which token each field takes (chain/aleo/utils.go, parseMessage). */
module AleoErrors {
  import opened AleoPacket
  import opened Wrappers

  // ---------- Panics ----------

  // The token at i, in a window that ends at end, sends the parser out of bounds.
  predicate Overruns(kinds: seq<Kind>, place: Place, i: nat, end: nat)
    requires i < end <= |kinds|
  {
    var lastInWindow, noRoomFor32 := i + 1 == end, |kinds| - i - 1 < 32;
    match place
    case AtSource => lastInWindow && kinds[i] in {ChainId, Addr}
    case AtDestination => (lastInWindow && kinds[i] == ChainId) || (noRoomFor32 && kinds[i] == Addr)
    case AtMessage =>
      (lastInWindow && kinds[i] in {Sender, Amount}) || (noRoomFor32 && kinds[i] in {DestToken, Receiver})
  }

  predicate WindowOverruns(kinds: seq<Kind>, place: Place, from: nat, end: nat) {
    end > |kinds| || exists i :: from <= i < end && Overruns(kinds, place, i, end)
  }

  // The token at m does.
  predicate Breaks(kinds: seq<Kind>, m: nat)
    requires m < |kinds|
  {
    match kinds[m]
    case Version | Sequence | Height => m + 1 == |kinds|
    case Source => WindowOverruns(kinds, AtSource, m + 1, m + 5)
    case Destination => WindowOverruns(kinds, AtDestination, m + 1, m + 36)
    case Message => WindowOverruns(kinds, AtMessage, m + 1, m + 71)
    case _ => false
  }

  lemma {:induction false} WindowFailsIff(
    msgs: seq<string>, kinds: seq<Kind>, place: Place, j: nat, end: nat, raw: Raw)
    requires |kinds| == |msgs| && j <= end <= |msgs|
    ensures Window(msgs, kinds, place, j, end, raw) == None <==>
            exists i :: j <= i < end && Overruns(kinds, place, i, end)
    decreases end - j
  {
    if j < end {
      var step := Assign(msgs, kinds, place, j, end, raw);
      assert step == None <==> Overruns(kinds, place, j, end);
      if step.Some? { WindowFailsIff(msgs, kinds, place, j + 1, end, step.value); }
    }
  }

  lemma VisitFailsIff(msgs: seq<string>, kinds: seq<Kind>, m: nat, raw: Raw)
    requires |kinds| == |msgs| && m < |msgs|
    ensures Visit(msgs, kinds, m, raw) == None <==> Breaks(kinds, m)
  {
    match kinds[m]
    case Source => if m + 5 <= |msgs| { WindowFailsIff(msgs, kinds, AtSource, m + 1, m + 5, raw); }
    case Destination => if m + 36 <= |msgs| { WindowFailsIff(msgs, kinds, AtDestination, m + 1, m + 36, raw); }
    case Message => if m + 71 <= |msgs| { WindowFailsIff(msgs, kinds, AtMessage, m + 1, m + 71, raw); }
    case _ =>
  }

  lemma {:induction false} ScanFailsIff(msgs: seq<string>, kinds: seq<Kind>, m: nat, raw: Raw)
    requires |kinds| == |msgs| && m <= |msgs|
    ensures Scan(msgs, kinds, m, raw) == None <==> exists k :: m <= k < |kinds| && Breaks(kinds, k)
    decreases |msgs| - m
  {
    if m < |msgs| {
      VisitFailsIff(msgs, kinds, m, raw);
      var step := Visit(msgs, kinds, m, raw);
      if step.Some? { ScanFailsIff(msgs, kinds, m + 1, step.value); }
    }
  }

  /** Any text at all: the parser panics exactly when some field name stands too near the end of the tokens, or of its
      window; otherwise it fails exactly when a required name is missing, and reports exactly the missing ones. */
  lemma ParseFailsIff(msgs: seq<string>)
    ensures var kinds := Kinds(msgs);
            && (MessageOf(msgs) == OutOfRange <==> exists k :: 0 <= k < |kinds| && Breaks(kinds, k))
            && (MessageOf(msgs).Missing? ==>
                  MessageOf(msgs).fields != {} &&
                  forall k :: k in MessageOf(msgs).fields <==>
                              k in {Version, Sequence, Source, Destination, Message, Height} && k !in kinds)
            && (MessageOf(msgs).Parsed? ==>
                  forall k <- {Version, Sequence, Source, Destination, Message, Height} :: k in kinds)
  {
    ScanFailsIff(msgs, Kinds(msgs), 0, EMPTY);
    var missing := set k | k in REQUIRED && k !in Kinds(msgs);
    forall k | missing == {} && k in REQUIRED ensures k in Kinds(msgs) { assert k !in missing; }
  }

  // ---------- Values ----------

  // No other token of this kind from m on.
  predicate NoneFrom(kinds: seq<Kind>, k: Kind, m: nat) {
    forall i | m <= i < |kinds| :: kinds[i] != k
  }

  // Windows leave the three plain fields alone.
  lemma {:induction false} WindowKeepsPlain(
    msgs: seq<string>, kinds: seq<Kind>, place: Place, j: nat, end: nat, raw: Raw)
    requires |kinds| == |msgs| && j <= end <= |msgs|
    ensures var r := Window(msgs, kinds, place, j, end, raw);
            r.Some? ==> r.value.version == raw.version && r.value.sequence == raw.sequence && r.value.height == raw.height
    decreases end - j
  {
    if j < end {
      var step := Assign(msgs, kinds, place, j, end, raw);
      if step.Some? { WindowKeepsPlain(msgs, kinds, place, j + 1, end, step.value); }
    }
  }

  lemma VisitPlain(msgs: seq<string>, kinds: seq<Kind>, m: nat, raw: Raw)
    requires |kinds| == |msgs| && m < |msgs|
    ensures var r := Visit(msgs, kinds, m, raw);
            r.Some? ==>
              && (kinds[m] in {Version, Sequence, Height} ==> m + 1 < |msgs|)
              && r.value.version == (if kinds[m] == Version then msgs[m + 1] else raw.version)
              && r.value.sequence == (if kinds[m] == Sequence then msgs[m + 1] else raw.sequence)
              && r.value.height == (if kinds[m] == Height then msgs[m + 1] else raw.height)
  {
    match kinds[m]
    case Source => if m + 5 <= |msgs| { WindowKeepsPlain(msgs, kinds, AtSource, m + 1, m + 5, raw); }
    case Destination => if m + 36 <= |msgs| { WindowKeepsPlain(msgs, kinds, AtDestination, m + 1, m + 36, raw); }
    case Message => if m + 71 <= |msgs| { WindowKeepsPlain(msgs, kinds, AtMessage, m + 1, m + 71, raw); }
    case _ =>
  }

  /** The last mention wins: version, sequence and height are the tokens after the last tokens that name them. */
  lemma {:induction false} LastNameWins(msgs: seq<string>, kinds: seq<Kind>, m: nat, raw: Raw, at: nat)
    requires |kinds| == |msgs| && m <= at < |msgs|
    requires kinds[at] in {Version, Sequence, Height} && NoneFrom(kinds, kinds[at], at + 1)
    ensures var r := Scan(msgs, kinds, m, raw);
            r.Some? ==> at + 1 < |msgs| && FieldOf(kinds[at], r.value) == msgs[at + 1]
    decreases |msgs| - m
  {
    VisitPlain(msgs, kinds, m, raw);
    var step := Visit(msgs, kinds, m, raw);
    if step.Some? {
      if m < at {
        LastNameWins(msgs, kinds, m + 1, step.value, at);
      } else {
        ScanKeepsPlain(msgs, kinds, m + 1, step.value, kinds[at]);
      }
    }
  }

  function FieldOf(k: Kind, raw: Raw): string
    requires k in {Version, Sequence, Height}
  {
    match k
    case Version => raw.version
    case Sequence => raw.sequence
    case Height => raw.height
  }

  lemma {:induction false} ScanKeepsPlain(msgs: seq<string>, kinds: seq<Kind>, m: nat, raw: Raw, k: Kind)
    requires |kinds| == |msgs| && m <= |msgs|
    requires k in {Version, Sequence, Height} && NoneFrom(kinds, k, m)
    ensures var r := Scan(msgs, kinds, m, raw); r.Some? ==> FieldOf(k, r.value) == FieldOf(k, raw)
    decreases |msgs| - m
  {
    if m < |msgs| {
      VisitPlain(msgs, kinds, m, raw);
      var step := Visit(msgs, kinds, m, raw);
      if step.Some? { ScanKeepsPlain(msgs, kinds, m + 1, step.value, k); }
    }
  }
}
