/** The chain service's namespaces (store/db.go) over buckets of bytes. A base namespace binds the sequence number
    of every completed packet to its source-chain height; here each operation on the bytes is proved to be the
    operation on numbered records that the rest of the project reasons with. */
module Store {
  import opened BigEndian
  import opened Bolt
  import opened Prune
  import opened Wrappers
  import R = Records

  // A zero height is stored as an empty value.
  function HeightBytes(h: U64): Bytes {
    if h == 0 then [] else Encode(h, 8)
  }

  function HeightOf(value: Bytes): nat {
    if |value| == 0 then 0 else Decode(value)
  }

  function RecordOf(e: Entry<Bytes>): R.Rec {
    R.Rec(Decode(e.key), HeightOf(e.value))
  }

  function RecordsOf(es: seq<Entry<Bytes>>): (rs: seq<R.Rec>)
    ensures |rs| == |es|
    ensures forall i | 0 <= i < |rs| :: rs[i] == RecordOf(es[i])
  {
    seq(|es|, i requires 0 <= i < |es| => RecordOf(es[i]))
  }

  // A namespace only ever written through StoreBaseSeqNum.
  ghost predicate NumberKeyed(es: seq<Entry<Bytes>>) {
    forall e | e in es :: |e.key| == 8 && (|e.value| == 0 || (|e.value| == 8 && Decode(e.value) != 0))
  }

  ghost predicate BaseNamespace(b: Bucket<Bytes>) reads b {
    b.Valid() && NumberKeyed(b.entries)
  }

  /** Cursor order on the keys is numeric order on the records. */
  lemma RecordsAscend(es: seq<Entry<Bytes>>)
    requires Ascending(es) && NumberKeyed(es)
    ensures R.Ascending(RecordsOf(es))
    ensures forall r | r in RecordsOf(es) :: r.number < U64_LIMIT && r.height < U64_LIMIT
  {
    Pow8();
    forall i, j | 0 <= i < j < |es| ensures RecordsOf(es)[i].number < RecordsOf(es)[j].number {
      assert es[i] in es && es[j] in es;
      LessIsNumericOrder(es[i].key, es[j].key);
    }
  }

  // Records and entries that carry the same numbers, whatever else they hold.
  ghost predicate SameNumbers<V>(es: seq<Entry<V>>, rs: seq<R.Rec>) {
    |es| == |rs| && forall i | 0 <= i < |es| :: |es[i].key| == 8 && Decode(es[i].key) == rs[i].number
  }

  /** Seeking a number's key in the bytes stops where seeking the number in the records does. */
  lemma {:induction false} SeekAgrees<V>(es: seq<Entry<V>>, rs: seq<R.Rec>, k: U64)
    requires SameNumbers(es, rs)
    ensures Seek(es, Encode(k, 8)) == R.Seek(rs, k)
    ensures Has(es, Encode(k, 8)) <==> R.Has(rs, k)
  {
    Pow8();
    DecodeEncode(k, 8);
    if |es| > 0 {
      LessIsNumericOrder(es[0].key, Encode(k, 8));
      SeekAgrees(es[1..], rs[1..], k);
      var i := Seek(es, Encode(k, 8));
      if i < |es| { EncodeDecode(es[i].key); }
    }
  }

  lemma RecordNumbers(es: seq<Entry<Bytes>>)
    requires NumberKeyed(es)
    ensures SameNumbers(es, RecordsOf(es))
  {
    forall i | 0 <= i < |es| ensures |es[i].key| == 8 { assert es[i] in es; }
  }

  lemma HeightRoundTrip(h: U64)
    ensures HeightOf(HeightBytes(h)) == h
    ensures |HeightBytes(h)| == 0 || (|HeightBytes(h)| == 8 && h != 0)
  {
    Pow8();
    DecodeEncode(h, 8);
  }

  lemma RecordsOfSplit(es: seq<Entry<Bytes>>, i: nat, k: nat)
    requires i <= |es| && k <= |es|
    ensures RecordsOf(es[..i]) == RecordsOf(es)[..i]
    ensures RecordsOf(es[k..]) == RecordsOf(es)[k..]
  {
  }

  lemma RecordsOfAppend(a: seq<Entry<Bytes>>, b: seq<Entry<Bytes>>)
    ensures RecordsOf(a + b) == RecordsOf(a) + RecordsOf(b)
  {
  }

  lemma NumberPut(es: seq<Entry<Bytes>>, k: U64, h: U64)
    requires Ascending(es) && NumberKeyed(es)
    ensures NumberKeyed(Insert(es, Encode(k, 8), HeightBytes(h)))
  {
    HeightRoundTrip(h);
    InsertBinds(es, Encode(k, 8), HeightBytes(h));
  }

  /** Putting a number's bytes is inserting the record. */
  lemma InsertAgrees(es: seq<Entry<Bytes>>, k: U64, h: U64)
    requires NumberKeyed(es)
    ensures RecordsOf(Insert(es, Encode(k, 8), HeightBytes(h))) == R.Insert(RecordsOf(es), R.Rec(k, h))
  {
    var key := Encode(k, 8);
    var e := Entry(key, HeightBytes(h));
    RecordNumbers(es);
    SeekAgrees(es, RecordsOf(es), k);
    RecordsOfSplit(es, |Low(es, key)|, |es| - |High(es, key)|);
    RecordsOfAppend(Low(es, key), [e]);
    RecordsOfAppend(Low(es, key) + [e], High(es, key));
    assert RecordsOf([e]) == [R.Rec(k, h)] by {
      Pow8();
      DecodeEncode(k, 8);
      HeightRoundTrip(h);
    }
  }

  /** Deleting a number's bytes is removing the record. */
  lemma RemoveAgrees(es: seq<Entry<Bytes>>, k: U64)
    requires Ascending(es) && NumberKeyed(es)
    ensures var out := Remove(es, Encode(k, 8));
            NumberKeyed(out) && RecordsOf(out) == R.Remove(RecordsOf(es), k)
  {
    RecordNumbers(es);
    SeekAgrees(es, RecordsOf(es), k);
    var key := Encode(k, 8);
    RecordsOfSplit(es, |Low(es, key)|, |es| - |High(es, key)|);
    RecordsOfAppend(Low(es, key), High(es, key));
  }

  // ---------- The namespace operations ----------

  method StoreBaseSeqNum(b: Bucket<Bytes>, k: U64, v: U64)
    requires BaseNamespace(b)
    modifies b
    ensures BaseNamespace(b)
    ensures RecordsOf(b.entries) == R.Insert(old(RecordsOf(b.entries)), R.Rec(k, v))
  {
    NumberPut(b.entries, k, v);
    InsertAgrees(b.entries, k, v);
    var key := KeyBytes(k);
    var value: Bytes := [];
    if v != 0 {
      var height := KeyBytes(v);
      value := height[..];
    }
    var _ := b.Put(key[..], value);
  }

  lemma LastIsLargest(es: seq<Entry<Bytes>>)
    requires Ascending(es) && NumberKeyed(es) && |es| > 0
    ensures forall r | r in RecordsOf(es) :: r.number <= RecordsOf(es)[|es| - 1].number
  {
    RecordsAscend(es);
  }

  lemma EntryDecoded(e: Entry<Bytes>)
    requires |e.key| == 8 && (|e.value| == 0 || (|e.value| == 8 && Decode(e.value) != 0))
    ensures Decode(e.key) < U64_LIMIT && HeightOf(e.value) < U64_LIMIT
    ensures HeightOf(e.value) == 0 <==> |e.value| == 0
  {
    Pow8();
  }

  lemma LastRecord(es: seq<Entry<Bytes>>, e: Entry<Bytes>)
    requires Ascending(es) && NumberKeyed(es) && |es| > 0 && e == es[|es| - 1]
    ensures RecordsOf(es)[|es| - 1] == R.Rec(Decode(e.key), HeightOf(e.value))
    ensures forall r | r in RecordsOf(es) :: r.number <= Decode(e.key)
    ensures Decode(e.key) < U64_LIMIT && HeightOf(e.value) < U64_LIMIT
    ensures HeightOf(e.value) == 0 <==> |e.value| == 0
  {
    assert e in es;
    EntryDecoded(e);
    LastIsLargest(es);
  }

  /** Where to resume: one past the last record, which is the largest, and its height, wrapping as uint64 does. */
  method GetStartingSeqNumAndHeight(b: Bucket<Bytes>) returns (seqNum: U64, height: U64)
    requires BaseNamespace(b)
    ensures |b.entries| == 0 ==> seqNum == 0 && height == 0
    ensures var rs := RecordsOf(b.entries);
            |rs| > 0 ==>
              var last := rs[|rs| - 1];
              && (forall r | r in rs :: r.number <= last.number)
              && seqNum == (last.number + 1) % 0x1_0000_0000_0000_0000
              && height == if last.height == 0 then 0 else (last.height + 1) % 0x1_0000_0000_0000_0000
  {
    seqNum, height := 0, 0;
    var last := b.LastKeyValue();
    if last.Some? {
      LastRecord(b.entries, last.value);
      seqNum := Increment(Decode(last.value.key));
      if |last.value.value| != 0 {
        height := Increment(Decode(last.value.value));
      }
    }
  }

  datatype GapReport = NoFetch | Fetch(startSeq: nat, endSeq: nat, startHeight: nat, endHeight: nat)

  // The records either side of a reported gap.
  function GapOf(report: GapReport): Option<Gap> {
    match report
    case NoFetch => None
    case Fetch(_, _, _, _) =>
      Some(Gap(R.Rec(report.startSeq, report.startHeight), R.Rec(report.endSeq, report.endHeight)))
  }

  lemma DeleteFirst(es: seq<Entry<Bytes>>)
    requires |es| > 0
    ensures Remove(es, es[0].key) == es[1..]
  {
    LessTotal(es[0].key, es[0].key);
  }

  // Deletes the given keys one by one; PruneBaseSeqNum issues these concurrently, each as its own transaction.
  method DeleteLeading(b: Bucket<Bytes>, keys: seq<Bytes>)
    requires b.Valid() && |keys| <= |b.entries|
    requires forall i | 0 <= i < |keys| :: keys[i] == b.entries[i].key
    modifies b
    ensures b.Valid() && b.entries == old(b.entries)[|keys|..]
  {
    var i := 0;
    while i < |keys|
      invariant i <= |keys|
      invariant b.Valid() && b.entries == old(b.entries)[i..]
    {
      DeleteFirst(b.entries);
      b.Delete(keys[i]);
      i := i + 1;
    }
  }

  // Walks the numbered snapshot up to its first gap, collecting the keys that a later key of the run supersedes.
  method WalkRun(walked: seq<Entry<Bytes>>, w: seq<R.Rec>) returns (toDelete: seq<Bytes>, report: GapReport)
    requires |w| == |walked| > 0 && R.Ascending(w)
    requires forall r | r in w :: r.number < U64_LIMIT
    ensures IsRun(w, |toDelete| + 1)
    ensures forall j | 0 <= j < |toDelete| :: toDelete[j] == walked[j].key
    ensures var n := |toDelete| + 1;
            && (report.NoFetch? <==> n == |w|)
            && (report.Fetch? ==>
                  && report.startSeq == w[n - 1].number && report.startHeight == w[n - 1].height
                  && report.endSeq == w[n].number && report.endHeight == w[n].height)
  {
    var curKey, cur := walked[0].key, w[0];
    toDelete := [];
    report := NoFetch;
    var i := 1;
    while i < |walked|
      invariant 1 <= i <= |walked| && |toDelete| == i - 1
      invariant curKey == walked[i - 1].key && cur == w[i - 1]
      invariant forall j | 0 <= j < |toDelete| :: toDelete[j] == walked[j].key
      invariant Consecutive(w, i) && report == NoFetch
    {
      assert w[i - 1].number < w[i].number && w[i] in w;
      if w[i].number == Increment(cur.number) {
        toDelete := toDelete + [curKey];
        curKey, cur := walked[i].key, w[i];
      } else {
        report := Fetch(cur.number, w[i].number, cur.height, w[i].height);
        break;
      }
      i := i + 1;
    }
  }

  lemma RunDecidesPass(rs: seq<R.Rec>, n: nat)
    requires IsRun(Window(rs), n)
    ensures Pruned(rs) == rs[n - 1..]
    ensures FirstGap(rs) == if n < |Window(rs)| then Some(Gap(Window(rs)[n - 1], Window(rs)[n])) else None
  {
    RunIsUnique(Window(rs), n, RunLength(Window(rs)));
  }

  lemma SnapshotRecords(es: seq<Entry<Bytes>>)
    requires Ascending(es) && NumberKeyed(es)
    ensures var w := RecordsOf(es[..Min(PRUNE_WINDOW, |es|)]);
            w == Window(RecordsOf(es)) && R.Ascending(w) && forall r | r in w :: r.number < U64_LIMIT
  {
    RecordsAscend(es);
    RecordsOfSplit(es, Min(PRUNE_WINDOW, |es|), 0);
  }

  lemma DroppedKeyed(es: seq<Entry<Bytes>>, n: nat)
    requires NumberKeyed(es) && n <= |es|
    ensures NumberKeyed(es[n..])
    ensures RecordsOf(es[n..]) == RecordsOf(es)[n..]
  {
  }

  lemma WalkedRecords(es: seq<Entry<Bytes>>, walked: seq<Entry<Bytes>>)
    requires Ascending(es) && NumberKeyed(es) && walked == es[..Min(1000, |es|)]
    ensures var w := RecordsOf(walked);
            w == RecordsOf(es)[..Min(1000, |es|)] && R.Ascending(w) && forall r | r in w :: r.number < U64_LIMIT
    ensures forall i | 0 <= i < |walked| :: walked[i].key == es[i].key && RecordsOf(walked)[i] == RecordsOf(es)[i]
  {
    SnapshotRecords(es);
  }

  // What the pass found is what the run of the first thousand records says, whichever way that run is come by.
  lemma PassPinned(rs: seq<R.Rec>, m: nat, report: GapReport)
    requires IsRun(rs[..Min(1000, |rs|)], m)
    requires report.NoFetch? <==> m == Min(1000, |rs|)
    requires report.Fetch? ==>
               && report.startSeq == rs[m - 1].number && report.startHeight == rs[m - 1].height
               && report.endSeq == rs[m].number && report.endHeight == rs[m].height
    ensures forall n: nat | IsRun(rs[..Min(1000, |rs|)], n) :: n == m
    ensures Pruned(rs) == rs[m - 1..]
    ensures FirstGap(rs) == GapOf(report)
  {
    RunDecidesPass(rs, m);
    forall n: nat | IsRun(rs[..Min(1000, |rs|)], n) ensures n == m { RunIsUnique(rs[..Min(1000, |rs|)], n, m); }
  }

  // Decides, from a walk of the first entries, how many of them a pass deletes and what it reports.
  method DecidePass(walked: seq<Entry<Bytes>>, ghost es: seq<Entry<Bytes>>)
    returns (toDelete: seq<Bytes>, report: GapReport)
    requires Ascending(es) && NumberKeyed(es) && walked == es[..Min(1000, |es|)]
    ensures |toDelete| <= |es| && forall i | 0 <= i < |toDelete| :: toDelete[i] == es[i].key
    ensures |es| == 0 ==> toDelete == [] && report == NoFetch
    ensures var rs, m := RecordsOf(es), |toDelete| + 1;
            |es| > 0 ==>
              && IsRun(rs[..Min(1000, |rs|)], m)
              && (report.NoFetch? <==> m == Min(1000, |rs|))
              && (report.Fetch? ==>
                    && report.startSeq == rs[m - 1].number && report.startHeight == rs[m - 1].height
                    && report.endSeq == rs[m].number && report.endHeight == rs[m].height)
  {
    if |walked| == 0 {
      return [], NoFetch;
    }
    WalkedRecords(es, walked);
    hide IsRun, RecordsOf, NumberKeyed;
    toDelete, report := WalkRun(walked, RecordsOf(walked));
  }

  /** One pruning pass over the stored bytes. Of the first thousand records it finds the run of consecutive numbers from
      the first one on and deletes all of the run but its last record. It reports a gap exactly when the run stops short
      of those thousand: between the run's last record and the next, numbers and heights each from its own record. */
  method PruneBaseSeqNum(b: Bucket<Bytes>) returns (report: GapReport)
    requires BaseNamespace(b)
    modifies b
    ensures BaseNamespace(b)
    ensures |old(b.entries)| == 0 ==> b.entries == [] && report == NoFetch
    ensures var rs := old(RecordsOf(b.entries));
            |rs| > 0 ==>
              exists m: nat ::
                && IsRun(rs[..Min(1000, |rs|)], m)
                && RecordsOf(b.entries) == rs[m - 1..]
                && (report.NoFetch? <==> m == Min(1000, |rs|))
                && (report.Fetch? ==>
                      && report.startSeq == rs[m - 1].number && report.startHeight == rs[m - 1].height
                      && report.endSeq == rs[m].number && report.endHeight == rs[m].height)
    ensures RecordsOf(b.entries) == Pruned(old(RecordsOf(b.entries)))
    ensures FirstGap(old(RecordsOf(b.entries))) == GapOf(report)
  {
    ghost var es := b.entries;
    var walked := b.FirstN(PRUNE_WINDOW);
    var toDelete: seq<Bytes>;
    toDelete, report := DecidePass(walked, es);
    DeleteLeading(b, toDelete);
    DroppedKeyed(es, |toDelete|);
    if |es| > 0 { PassPinned(RecordsOf(es), |toDelete| + 1, report); }
  }

  // ---------- The retry namespace ----------

  // A namespace only ever written through StoreRetryPacket: each packet under its sequence number.
  ghost predicate PacketKeyed(es: seq<Entry<R.Rec>>) {
    forall e | e in es :: e.value.number < U64_LIMIT && e.key == Encode(e.value.number, 8)
  }

  ghost predicate RetryNamespace(b: Bucket<R.Rec>) reads b {
    b.Valid() && PacketKeyed(b.entries)
  }

  function PacketsOf(es: seq<Entry<R.Rec>>): (ps: seq<R.Rec>)
    ensures |ps| == |es|
    ensures forall i | 0 <= i < |ps| :: ps[i] == es[i].value
  {
    seq(|es|, i requires 0 <= i < |es| => es[i].value)
  }

  lemma PacketNumbers(es: seq<Entry<R.Rec>>)
    requires PacketKeyed(es)
    ensures SameNumbers(es, PacketsOf(es))
  {
    Pow8();
    forall i | 0 <= i < |es| ensures |es[i].key| == 8 && Decode(es[i].key) == es[i].value.number {
      assert es[i] in es;
      DecodeEncode(es[i].value.number, 8);
    }
  }

  /** The retry namespace holds its packets in ascending sequence number, which is the order they are retried in. */
  lemma PacketsAscend(es: seq<Entry<R.Rec>>)
    requires Ascending(es) && PacketKeyed(es)
    ensures R.Ascending(PacketsOf(es))
  {
    Pow8();
    PacketNumbers(es);
    forall i, j | 0 <= i < j < |es| ensures PacketsOf(es)[i].number < PacketsOf(es)[j].number {
      LessIsNumericOrder(es[i].key, es[j].key);
    }
  }

  lemma PacketsOfSplit(es: seq<Entry<R.Rec>>, i: nat, k: nat)
    requires i <= |es| && k <= |es|
    ensures PacketsOf(es[..i]) == PacketsOf(es)[..i]
    ensures PacketsOf(es[k..]) == PacketsOf(es)[k..]
  {
  }

  lemma PacketsOfAppend(a: seq<Entry<R.Rec>>, b: seq<Entry<R.Rec>>)
    ensures PacketsOf(a + b) == PacketsOf(a) + PacketsOf(b)
  {
  }

  lemma PacketPut(es: seq<Entry<R.Rec>>, p: R.Rec)
    requires Ascending(es) && PacketKeyed(es) && p.number < U64_LIMIT
    ensures PacketKeyed(Insert(es, Encode(p.number, 8), p))
  {
    InsertBinds(es, Encode(p.number, 8), p);
  }

  /** Putting a packet's bytes is inserting its record. */
  lemma InsertPacketAgrees(es: seq<Entry<R.Rec>>, p: R.Rec)
    requires PacketKeyed(es) && p.number < U64_LIMIT
    ensures PacketsOf(Insert(es, Encode(p.number, 8), p)) == R.Insert(PacketsOf(es), p)
  {
    var key := Encode(p.number, 8);
    PacketNumbers(es);
    SeekAgrees(es, PacketsOf(es), p.number);
    PacketsOfSplit(es, |Low(es, key)|, |es| - |High(es, key)|);
    PacketsOfAppend(Low(es, key), [Entry(key, p)]);
    PacketsOfAppend(Low(es, key) + [Entry(key, p)], High(es, key));
    assert PacketsOf([Entry(key, p)]) == [p];
  }

  // A packet already there under the same number is replaced.
  method StoreRetryPacket(b: Bucket<R.Rec>, p: R.Rec)
    requires RetryNamespace(b) && p.number < U64_LIMIT
    modifies b
    ensures RetryNamespace(b)
    ensures PacketsOf(b.entries) == R.Insert(old(PacketsOf(b.entries)), p)
  {
    PacketPut(b.entries, p);
    InsertPacketAgrees(b.entries, p);
    var key := KeyBytes(p.number);
    var _ := b.Put(key[..], p);
  }

  // An error where the namespace is empty, or n is 0.
  method RetrieveAndDeleteNPackets(b: Bucket<R.Rec>, n: nat) returns (r: Option<seq<R.Rec>>)
    requires RetryNamespace(b)
    modifies b
    ensures RetryNamespace(b)
    ensures var all := old(PacketsOf(b.entries));
            var k := if n < |all| then n else |all|;
            PacketsOf(b.entries) == all[k..] && r == if k == 0 then None else Some(all[..k])
  {
    ghost var es := b.entries;
    var taken := b.TakeFirstN(n);
    ghost var k := if n < |es| then n else |es|;
    PacketsOfSplit(es, k, k);
    if taken.None? { return None; }
    var pkts: seq<R.Rec> := [];
    var i := 0;
    while i < |taken.value|
      invariant i <= |taken.value| && pkts == PacketsOf(taken.value)[..i]
    {
      pkts := pkts + [taken.value[i].value];
      i := i + 1;
    }
    assert pkts == PacketsOf(taken.value);
    r := Some(pkts);
  }
}
