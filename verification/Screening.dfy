/** What a worker does with one packet (relay/relays.go, processPacket) and the screening verdicts it leaves behind
    for the next attempt (relay/address_screener/screen.go). */
module Screening {
  import opened BigEndian
  import opened Bolt
  import opened Wrappers

  // The stored form of a verdict: "1" or "0".
  function VerdictBytes(isWhite: bool): (b: Bytes)
    ensures b == [(if isWhite then '1' else '0') as int]
  {
    if isWhite then [49] else [48]
  }

  // The verdict stored under a key, if any.
  function Verdict(es: seq<Entry<Bytes>>, key: Bytes): Option<bool> {
    var i := Seek(es, key);
    if Has(es, key) then Some(es[i].value == VerdictBytes(true)) else None
  }

  // A key has at most one entry, and seeking finds it.
  lemma VerdictIsEntry(es: seq<Entry<Bytes>>, key: Bytes)
    requires Ascending(es)
    ensures forall e | e in es && e.key == key :: Verdict(es, key) == Some(e.value == VerdictBytes(true))
    ensures Verdict(es, key).Some? ==> exists e :: e in es && e.key == key
  {
    SeekSeparates(es, key);
    LessTotal(key, key);
    var i := Seek(es, key);
    forall e | e in es && e.key == key ensures Verdict(es, key) == Some(e.value == VerdictBytes(true)) {
      var j :| 0 <= j < |es| && es[j] == e;
    }
    if Has(es, key) { assert es[i] in es; }
  }

  /** Storing a verdict is seen under its key and changes no other. */
  lemma VerdictOfInsert(es: seq<Entry<Bytes>>, key: Bytes, isWhite: bool, other: Bytes)
    requires Ascending(es)
    ensures Verdict(Insert(es, key, VerdictBytes(isWhite)), other) ==
            if other == key then Some(isWhite) else Verdict(es, other)
  {
    InsertBinds(es, key, VerdictBytes(isWhite));
    VerdictIsEntry(es, other);
    VerdictIsEntry(Insert(es, key, VerdictBytes(isWhite)), other);
  }

  /** Taking a verdict removes it and changes no other. */
  lemma VerdictOfRemove(es: seq<Entry<Bytes>>, key: Bytes, other: Bytes)
    requires Ascending(es)
    ensures Verdict(Remove(es, key), other) == if other == key then None else Verdict(es, other)
  {
    RemoveUnbinds(es, key);
    VerdictIsEntry(es, other);
    VerdictIsEntry(Remove(es, key), other);
  }

  // The verdict an attempt uses: the stored one, or else the screening service's answer.
  function Chosen(stored: Option<bool>, answer: bool): bool {
    match stored
    case Some(v) => v
    case None => answer
  }

  // ---------- Histories of attempts ----------

  // Screened takes the key's verdict; Saved stores the verdict of the attempt that was the history's event `attempt`.
  // A packet is handed to retry before its verdict is saved, so any event may come between the two, and an attempt's
  // save may never come.
  datatype Event = Screened(key: Bytes) | Saved(key: Bytes, attempt: nat)

  // Only verdicts of earlier attempts at the same packet are saved.
  predicate WellFormed(events: seq<Event>) {
    forall i | 0 <= i < |events| && events[i].Saved? ::
      events[i].attempt < i && events[events[i].attempt] == Screened(events[i].key)
  }

  // What is stored for a packet at the start of a history.
  type Start = Bytes -> Option<bool>

  // The verdict stored under a key just before event i. answers(i) is what the screening service would say at event i.
  function Held(start: Start, events: seq<Event>, answers: nat -> bool, i: nat, key: Bytes): Option<bool>
    requires WellFormed(events) && i <= |events|
    decreases i, 0
  {
    if i == 0 then start(key)
    else if events[i - 1].key != key then Held(start, events, answers, i - 1, key)
    else match events[i - 1]
         case Screened(_) => None
         case Saved(_, attempt) => Some(VerdictAt(start, events, answers, attempt))
  }

  // The verdict of the attempt that is event i.
  function VerdictAt(start: Start, events: seq<Event>, answers: nat -> bool, i: nat): bool
    requires WellFormed(events) && i < |events| && events[i].Screened?
    decreases i, 1
  {
    Chosen(Held(start, events, answers, i, events[i].key), answers(i))
  }

  // The code asks no service yet and answers true.
  function Always(i: nat): bool { true }

  // Event f is the first attempt at the packet.
  predicate FirstAttempt(events: seq<Event>, key: Bytes, f: nat) {
    f < |events| && events[f] == Screened(key) && forall i | 0 <= i < f :: events[i] != Screened(key)
  }

  // A verdict of the packet was saved and not taken since.
  predicate SavedSince(events: seq<Event>, key: Bytes, i: nat)
    requires i <= |events|
  {
    exists j :: 0 <= j < i && events[j].Saved? && events[j].key == key && forall k | j < k < i :: events[k] != Screened(key)
  }

  lemma SavedSinceStep(events: seq<Event>, key: Bytes, i: nat)
    requires i < |events|
    ensures SavedSince(events, key, i + 1) <==>
            if events[i].key != key then SavedSince(events, key, i) else events[i].Saved?
  {
    if events[i].key != key && SavedSince(events, key, i) {
      var j :| 0 <= j < i && events[j].Saved? && events[j].key == key && forall k | j < k < i :: events[k] != Screened(key);
      assert forall k | j < k < i + 1 :: events[k] != Screened(key);
    }
  }

  // From the first attempt on, a verdict is there exactly if one was saved since the last attempt.
  lemma {:induction false} HeldIffSaved(
    start: Start, events: seq<Event>, answers: nat -> bool, key: Bytes, f: nat, i: nat)
    requires WellFormed(events) && FirstAttempt(events, key, f) && f < i <= |events|
    ensures Held(start, events, answers, i, key).Some? <==> SavedSince(events, key, i)
    decreases i
  {
    SavedSinceStep(events, key, i - 1);
    if f < i - 1 { HeldIffSaved(start, events, answers, key, f, i - 1); }
  }

  // Before the first attempt nothing touches the packet's verdict.
  lemma {:induction false} UntouchedBefore(
    start: Start, events: seq<Event>, answers: nat -> bool, key: Bytes, f: nat, i: nat)
    requires WellFormed(events) && FirstAttempt(events, key, f) && i <= f
    ensures Held(start, events, answers, i, key) == start(key)
    decreases i
  {
    if i > 0 { UntouchedBefore(start, events, answers, key, f, i - 1); }
  }

  // Every attempt at the packet has the first one's verdict.
  ghost predicate Agree(start: Start, events: seq<Event>, answers: nat -> bool, key: Bytes, f: nat)
    requires WellFormed(events) && FirstAttempt(events, key, f)
  {
    forall i | f <= i < |events| && events[i] == Screened(key) ::
      VerdictAt(start, events, answers, i) == VerdictAt(start, events, answers, f)
  }

  // Every attempt after the first finds a verdict saved since the attempt before it.
  predicate AlwaysSaved(events: seq<Event>, key: Bytes, f: nat) {
    forall i | f < i < |events| && events[i] == Screened(key) :: SavedSince(events, key, i)
  }

  lemma {:induction false} SavedAgree(
    start: Start, events: seq<Event>, answers: nat -> bool, key: Bytes, f: nat, i: nat)
    requires WellFormed(events) && FirstAttempt(events, key, f) && f <= i < |events| && events[i] == Screened(key)
    requires AlwaysSaved(events, key, f)
    ensures VerdictAt(start, events, answers, i) == VerdictAt(start, events, answers, f)
    decreases i, 1
  {
    if f < i {
      HeldIffSaved(start, events, answers, key, f, i);
      HeldAgrees(start, events, answers, key, f, i);
    }
  }

  lemma {:induction false} HeldAgrees(
    start: Start, events: seq<Event>, answers: nat -> bool, key: Bytes, f: nat, i: nat)
    requires WellFormed(events) && FirstAttempt(events, key, f) && f < i <= |events|
    requires AlwaysSaved(events, key, f)
    ensures var held := Held(start, events, answers, i, key);
            held.Some? ==> held.value == VerdictAt(start, events, answers, f)
    decreases i, 0
  {
    if events[i - 1].key != key {
      HeldAgrees(start, events, answers, key, f, i - 1);
    } else if events[i - 1].Saved? {
      SavedAgree(start, events, answers, key, f, events[i - 1].attempt);
    }
  }

  /** Which schedules keep the first verdict, whatever the service would answer at each attempt and whatever happens to
      other packets in between: exactly those where every later attempt comes after a save that follows the attempt
      before it. */
  lemma VerdictsAgreeIff(start: Start, events: seq<Event>, key: Bytes, f: nat)
    requires WellFormed(events) && FirstAttempt(events, key, f)
    ensures (forall answers: nat -> bool :: Agree(start, events, answers, key, f)) <==> AlwaysSaved(events, key, f)
  {
    if AlwaysSaved(events, key, f) {
      forall answers: nat -> bool ensures Agree(start, events, answers, key, f) {
        forall i | f <= i < |events| && events[i] == Screened(key)
          ensures VerdictAt(start, events, answers, i) == VerdictAt(start, events, answers, f)
        {
          SavedAgree(start, events, answers, key, f, i);
        }
      }
    } else {
      var i :| f < i < |events| && events[i] == Screened(key) && !SavedSince(events, key, i);
      var answers := UnlikeFirst(start, events, key, f, i);
    }
  }

  // An attempt that finds nothing stored may be answered unlike the first.
  lemma UnlikeFirst(start: Start, events: seq<Event>, key: Bytes, f: nat, i: nat) returns (answers: nat -> bool)
    requires WellFormed(events) && FirstAttempt(events, key, f)
    requires f < i < |events| && events[i] == Screened(key) && !SavedSince(events, key, i)
    ensures !Agree(start, events, answers, key, f)
  {
    answers := (n: nat) => if start(key) == None then n == f else start(key) == Some(false);
    UntouchedBefore(start, events, answers, key, f, f);
    HeldIffSaved(start, events, answers, key, f, i);
    assert VerdictAt(start, events, answers, i) != VerdictAt(start, events, answers, f);
  }

  lemma {:induction false} NeverFalse(start: Start, events: seq<Event>, key: Bytes, i: nat)
    requires WellFormed(events) && i <= |events| && start(key) != Some(false)
    ensures Held(start, events, Always, i, key) != Some(false)
    decreases i
  {
    if i > 0 {
      NeverFalse(start, events, key, i - 1);
      if events[i - 1].key == key && events[i - 1].Saved? { NeverFalse(start, events, key, events[i - 1].attempt); }
    }
  }

  /** As the code stands, with no service behind it, no order matters: all attempts at a packet pass it, exactly when no
      "0" is stored for it to begin with. */
  lemma AnyOrderAsWritten(start: Start, events: seq<Event>, key: Bytes, f: nat)
    requires WellFormed(events) && FirstAttempt(events, key, f)
    ensures (forall i | 0 <= i < |events| && events[i] == Screened(key) :: VerdictAt(start, events, Always, i)) <==>
            start(key) != Some(false)
  {
    UntouchedBefore(start, events, Always, key, f, f);
    assert VerdictAt(start, events, Always, f) <==> start(key) != Some(false);
    if start(key) != Some(false) {
      forall i | 0 <= i < |events| && events[i] == Screened(key) ensures VerdictAt(start, events, Always, i) {
        NeverFalse(start, events, key, i);
      }
    }
  }

  // ---------- The namespace over a history ----------

  function StartOf(es: seq<Entry<Bytes>>): Start { key => Verdict(es, key) }

  // The namespace just before event i.
  function Stored(es: seq<Entry<Bytes>>, events: seq<Event>, answers: nat -> bool, i: nat): seq<Entry<Bytes>>
    requires WellFormed(events) && i <= |events|
  {
    if i == 0 then es
    else
      var before := Stored(es, events, answers, i - 1);
      match events[i - 1]
      case Screened(key) => Remove(before, key)
      case Saved(key, attempt) => Insert(before, key, VerdictBytes(VerdictAt(StartOf(es), events, answers, attempt)))
  }

  /** A history's verdicts are those in the stored namespace. */
  lemma {:induction false} StoredHolds(
    es: seq<Entry<Bytes>>, events: seq<Event>, answers: nat -> bool, i: nat, key: Bytes)
    requires WellFormed(events) && i <= |events| && Ascending(es)
    ensures Ascending(Stored(es, events, answers, i))
    ensures Verdict(Stored(es, events, answers, i), key) == Held(StartOf(es), events, answers, i, key)
    decreases i
  {
    if i > 0 {
      StoredHolds(es, events, answers, i - 1, key);
      hide Verdict, Chosen;
      var before := Stored(es, events, answers, i - 1);
      match events[i - 1]
      case Screened(k) =>
        RemoveUnbinds(before, k);
        VerdictOfRemove(before, k, key);
      case Saved(k, attempt) =>
        var v := VerdictAt(StartOf(es), events, answers, attempt);
        InsertBinds(before, k, VerdictBytes(v));
        VerdictOfInsert(before, k, v, key);
    }
  }

  // ---------- One attempt ----------

  // How signing and delivering went.
  datatype Attempt = SignFails | SendFails | Duplicate | Delivered

  // Where the packet goes afterwards.
  datatype Route = Dropped | RetryChannel | CompletedChannel

  // Screen: a stored verdict is used once; without one the packet passes.
  method Screen(b: Bucket<Bytes>, key: Bytes) returns (isWhite: bool)
    requires b.Valid()
    modifies b
    ensures b.Valid() && b.entries == Remove(old(b.entries), key)
    ensures isWhite == Chosen(old(Verdict(b.entries, key)), true)
    ensures forall e | e in old(b.entries) && e.key == key :: isWhite <==> e.value == ['1' as int]
    ensures (forall e | e in old(b.entries) :: e.key != key) ==> isWhite
  {
    VerdictIsEntry(b.entries, key);
    var stored := b.GetAndDelete(key);
    isWhite := true;
    if stored.Some? { isWhite := stored.value == VerdictBytes(true); }
  }

  // The history an attempt adds: its screening, and the save of its verdict if it gets that far.
  function Attempted(key: Bytes, saved: bool): (events: seq<Event>)
    ensures WellFormed(events) && |events| > 0 && events[0] == Screened(key)
  {
    if saved then [Screened(key), Saved(key, 0)] else [Screened(key)]
  }

  lemma AttemptedStores(es: seq<Entry<Bytes>>, key: Bytes, saved: bool)
    ensures var events := Attempted(key, saved);
            var isWhite := Chosen(Verdict(es, key), true);
            && VerdictAt(StartOf(es), events, Always, 0) == isWhite
            && Stored(es, events, Always, |events|) ==
               if saved then Insert(Remove(es, key), key, VerdictBytes(isWhite)) else Remove(es, key)
  {
    var events := Attempted(key, saved);
    assert Stored(es, events, Always, 0) == es;
    assert Stored(es, events, Always, 1) == Remove(es, key);
  }

  lemma VerdictsAfter(es: seq<Entry<Bytes>>, key: Bytes, isWhite: bool, saved: bool)
    requires Ascending(es)
    ensures var after := if saved then Insert(Remove(es, key), key, VerdictBytes(isWhite)) else Remove(es, key);
            && Verdict(after, key) == (if saved then Some(isWhite) else None)
            && forall other | other != key :: Verdict(after, other) == Verdict(es, other)
  {
    RemoveUnbinds(es, key);
    var taken := Remove(es, key);
    forall other
      ensures Verdict(taken, other) == if other == key then None else Verdict(es, other)
      ensures Verdict(Insert(taken, key, VerdictBytes(isWhite)), other) ==
              if other == key then Some(isWhite) else Verdict(taken, other)
    {
      VerdictOfRemove(es, key, other);
      VerdictOfInsert(taken, key, isWhite, other);
    }
  }

  lemma TextAfter(es: seq<Entry<Bytes>>, key: Bytes, isWhite: bool)
    requires Ascending(es)
    ensures forall e | e in Remove(es, key) :: e.key != key
    ensures forall e | e in Insert(Remove(es, key), key, VerdictBytes(isWhite)) && e.key == key ::
              e.value == [(if isWhite then '1' else '0') as int]
  {
    RemoveUnbinds(es, key);
    InsertBinds(Remove(es, key), key, VerdictBytes(isWhite));
  }

  /** One attempt at a packet. A failed attempt, and only that, goes to retry and saves its verdict for the next one,
      unless the write fails; a duplicate counts as delivered; a missed packet goes nowhere and leaves no verdict. What
      it does to the namespace is what its events do in a history. */
  method ProcessPacket(b: Bucket<Bytes>, key: Bytes, missed: bool, attempt: Attempt, saveOk: bool)
    returns (isWhite: bool, route: Route)
    requires b.Valid() && key != []
    modifies b
    ensures b.Valid()
    ensures isWhite == Chosen(old(Verdict(b.entries, key)), true)
    ensures route == Dropped <==> missed
    ensures route == RetryChannel <==> !missed && (attempt == SignFails || attempt == SendFails)
    ensures Verdict(b.entries, key) == if route == RetryChannel && saveOk then Some(isWhite) else None
    ensures forall other | other != key :: Verdict(b.entries, other) == old(Verdict(b.entries, other))
    ensures forall e | e in b.entries && e.key == key :: e.value == [(if isWhite then '1' else '0') as int]
    ensures var events := Attempted(key, route == RetryChannel && saveOk);
            && b.entries == Stored(old(b.entries), events, Always, |events|)
            && isWhite == VerdictAt(StartOf(old(b.entries)), events, Always, 0)
  {
    ghost var es := b.entries;
    var err := false;
    isWhite := Screen(b, key);
    if attempt == SignFails {
      err := true;
    } else if attempt == SendFails {
      err := true;
    } else if attempt == Duplicate {
      err := false;
    }
    // The deferred routing.
    if missed {
      route := Dropped;
    } else if err {
      route := RetryChannel;
      if saveOk {
        var _ := b.Put(key, VerdictBytes(isWhite));
      }
    } else {
      route := CompletedChannel;
    }
    AttemptedStores(es, key, route == RetryChannel && saveOk);
    VerdictsAfter(es, key, isWhite, route == RetryChannel && saveOk);
    TextAfter(es, key, isWhite);
  }
}
