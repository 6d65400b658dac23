/** What one pruning pass of a base namespace does (store/db.go, PruneBaseSeqNum), and where repeated passes end. */
module Prune {
  import opened Records
  import opened Wrappers

  // A pass looks at no more than this many keys.
  const PRUNE_WINDOW: nat := 1000

  // The records either side of a hole in the sequence numbers.
  datatype Gap = Gap(below: Rec, above: Rec)

  function Min(a: nat, b: nat): nat { if a < b then a else b }

  function Window(rs: seq<Rec>): seq<Rec> {
    rs[..Min(PRUNE_WINDOW, |rs|)]
  }

  // The first n records are numbered without a hole.
  predicate Consecutive(rs: seq<Rec>, n: nat)
    requires n <= |rs|
  {
    forall i | 0 <= i < n :: rs[i].number == rs[0].number + i
  }

  // The first n records are the leading run: consecutive, and not extendable.
  predicate IsRun(rs: seq<Rec>, n: nat) {
    0 < n <= |rs| && Consecutive(rs, n) && (n < |rs| ==> rs[n].number != rs[n - 1].number + 1)
  }

  /** Every namespace with a key has a leading run, and only one. */
  lemma {:induction false} RunExists(rs: seq<Rec>, n: nat)
    requires 0 < n <= |rs| && Consecutive(rs, n)
    ensures exists m :: IsRun(rs, m)
    decreases |rs| - n
  {
    if IsRun(rs, n) {
    } else {
      RunExists(rs, n + 1);
    }
  }

  lemma RunIsUnique(rs: seq<Rec>, m: nat, n: nat)
    requires IsRun(rs, m) && IsRun(rs, n)
    ensures m == n
  {
  }

  // How many records from the first on are numbered without a hole.
  ghost function RunLength(rs: seq<Rec>): (n: nat)
    requires |rs| > 0
    ensures IsRun(rs, n)
  {
    RunExists(rs, 1);
    var n :| IsRun(rs, n); n
  }

  // The namespace after one pass.
  ghost function Pruned(rs: seq<Rec>): seq<Rec> {
    if |rs| == 0 then [] else rs[RunLength(Window(rs)) - 1..]
  }

  // The gap a pass reports.
  ghost function FirstGap(rs: seq<Rec>): Option<Gap> {
    var w := Window(rs);
    if |rs| == 0 || RunLength(w) == |w| then None else Some(Gap(w[RunLength(w) - 1], w[RunLength(w)]))
  }

  lemma DropRun(rs: seq<Rec>, n: nat)
    requires Ascending(rs) && n < |rs| && Consecutive(rs, n + 1)
    ensures Ascending(rs[n..])
    ensures forall x :: x in rs[n..] <==> x in rs && rs[n].number <= x.number
    ensures forall k | rs[0].number <= k <= rs[n].number :: k in Keys(rs)
  {
    SplitAt(rs, n, n);
    forall k | rs[0].number <= k <= rs[n].number ensures k in Keys(rs) {
      var r := rs[k - rs[0].number];
      assert r in rs && r.number == k;
    }
  }

  /** A pass keeps the last key of the leading run and every key above it. What it drops lies below the new first
      key, and no number from the old first key up to the new one is missing. */
  lemma PrunedKeepsRunEnd(rs: seq<Rec>)
    requires Ascending(rs) && |rs| > 0
    ensures Ascending(Pruned(rs)) && |Pruned(rs)| > 0
    ensures Pruned(rs)[|Pruned(rs)| - 1] == rs[|rs| - 1]
    ensures forall x :: x in Pruned(rs) <==> x in rs && Pruned(rs)[0].number <= x.number
    ensures forall k | rs[0].number <= k <= Pruned(rs)[0].number :: k in Keys(rs)
  {
    var n := RunLength(Window(rs)) - 1;
    assert Consecutive(rs, n + 1) by {
      forall i | 0 <= i < n + 1 ensures rs[i].number == rs[0].number + i {
        assert Window(rs)[i] == rs[i];
      }
    }
    DropRun(rs, n);
  }

  /** A reported gap is a real one: neighbouring keys of the namespace with numbers missing between them. */
  lemma FirstGapIsHole(rs: seq<Rec>)
    requires Ascending(rs)
    ensures FirstGap(rs).Some? ==>
              var g := FirstGap(rs).value;
              && g.below in rs && g.above in rs && g.below.number + 1 < g.above.number
              && |Pruned(rs)| > 1 && g == Gap(Pruned(rs)[0], Pruned(rs)[1])
              && forall r | r in rs :: r.number <= g.below.number || g.above.number <= r.number
  {
    if FirstGap(rs).Some? {
      var n := RunLength(Window(rs));
      assert rs[n - 1] in rs && rs[n] in rs;
    }
  }

  /** No gap is reported exactly when every key looked at is part of one run. */
  lemma NoGapIffOneRun(rs: seq<Rec>)
    ensures FirstGap(rs).None? <==> Consecutive(rs, Min(1000, |rs|))
  {
    assert Consecutive(rs, |Window(rs)|) <==> Consecutive(Window(rs), |Window(rs)|) by {
      forall i | 0 <= i < |Window(rs)| ensures Window(rs)[i] == rs[i] {}
    }
    if |rs| > 0 && Consecutive(Window(rs), |Window(rs)|) {
      RunIsUnique(Window(rs), |Window(rs)|, RunLength(Window(rs)));
    }
  }

  // ---------- The deletes of a pass ----------

  // Deletes issued one after another, in the given order.
  function RemoveEach(rs: seq<Rec>, keys: seq<nat>): seq<Rec>
    decreases |keys|
  {
    if |keys| == 0 then rs else RemoveEach(Remove(rs, keys[0]), keys[1..])
  }

  lemma {:induction false} RemoveEachUnbinds(rs: seq<Rec>, keys: seq<nat>)
    requires Ascending(rs)
    ensures Ascending(RemoveEach(rs, keys))
    ensures forall x :: x in RemoveEach(rs, keys) <==> x in rs && x.number !in keys
    decreases |keys|
  {
    if |keys| > 0 {
      RemoveUnbinds(rs, keys[0]);
      RemoveEachUnbinds(Remove(rs, keys[0]), keys[1..]);
      assert keys == [keys[0]] + keys[1..];
    }
  }

  lemma {:induction false} SameRecordsSameOrder(a: seq<Rec>, b: seq<Rec>)
    requires Ascending(a) && Ascending(b)
    requires forall x :: x in a <==> x in b
    ensures a == b
  {
    assert |a| > 0 ==> a[0] in a;
    assert |b| > 0 ==> b[0] in b;
    if |a| > 0 {
      assert a[0] == b[0];
      forall x ensures x in a[1..] <==> x in b[1..] {
        assert x in a <==> x == a[0] || x in a[1..];
        assert x in b <==> x == b[0] || x in b[1..];
      }
      SameRecordsSameOrder(a[1..], b[1..]);
      assert a == [a[0]] + a[1..] && b == [b[0]] + b[1..];
    }
  }

  /** The deletes of a pass run concurrently: in whatever order they take effect, the namespace ends as the pass
      leaves it. */
  lemma DeletesInAnyOrder(rs: seq<Rec>, keys: seq<nat>)
    requires Ascending(rs) && |rs| > 0
    requires forall k :: k in keys <==> k in Keys(rs) && k < Pruned(rs)[0].number
    ensures RemoveEach(rs, keys) == Pruned(rs)
  {
    PrunedKeepsRunEnd(rs);
    RemoveEachUnbinds(rs, keys);
    forall x ensures x in RemoveEach(rs, keys) <==> x in Pruned(rs) {
      assert x in rs ==> x.number in Keys(rs);
    }
    SameRecordsSameOrder(RemoveEach(rs, keys), Pruned(rs));
  }

  // ---------- Repeated passes ----------

  ghost function Passes(rs: seq<Rec>, n: nat): seq<Rec> {
    if n == 0 then rs else Pruned(Passes(rs, n - 1))
  }

  lemma RunLengthOfDrop(rs: seq<Rec>, d: nat)
    requires |rs| > 0 && d < RunLength(rs)
    ensures RunLength(rs[d..]) == RunLength(rs) - d
  {
    var n := RunLength(rs);
    assert rs[d].number == rs[0].number + d;
    assert IsRun(rs[d..], n - d) by {
      forall i | 0 <= i < n - d ensures rs[d..][i].number == rs[d..][0].number + i {
        assert rs[d + i].number == rs[0].number + (d + i);
      }
    }
    RunIsUnique(rs[d..], n - d, RunLength(rs[d..]));
  }

  lemma RunLengthOfTake(rs: seq<Rec>, t: nat)
    requires 0 < t <= |rs|
    ensures RunLength(rs[..t]) == Min(t, RunLength(rs))
  {
    RunIsUnique(rs[..t], Min(t, RunLength(rs)), RunLength(rs[..t]));
  }

  // How many keys n passes drop from a namespace whose leading run has `run` keys.
  function Dropped(run: nat, n: nat): (d: nat)
    requires run > 0
    ensures d < run
  {
    Min(n * 999, run - 1)
  }

  lemma DroppedAdds(run: nat, n: nat)
    requires run > 0 && n > 0
    ensures Dropped(run, n) == Dropped(run, n - 1) + Dropped(run - Dropped(run, n - 1), 1)
  {
  }

  lemma PrunedDrops(rs: seq<Rec>)
    requires |rs| > 0
    ensures Pruned(rs) == rs[Dropped(RunLength(rs), 1)..]
    ensures RunLength(Pruned(rs)) == RunLength(rs) - Dropped(RunLength(rs), 1)
  {
    RunLengthOfTake(rs, |Window(rs)|);
    assert RunLength(Window(rs)) - 1 == Dropped(RunLength(rs), 1);
    RunLengthOfDrop(rs, Dropped(RunLength(rs), 1));
  }

  lemma PassAfterDrop(rs: seq<Rec>, d: nat, e: nat)
    requires |rs| > 0 && d < RunLength(rs) && e == d + Dropped(RunLength(rs) - d, 1)
    ensures Pruned(rs[d..]) == rs[e..]
  {
    RunLengthOfDrop(rs, d);
    PrunedDrops(rs[d..]);
    assert rs[d..][e - d..] == rs[e..];
  }

  /** n passes drop 999 keys each until only the end of the leading run is left: the exact result in closed form. */
  lemma {:induction false} PassesClosedForm(rs: seq<Rec>, n: nat)
    requires |rs| > 0
    ensures Passes(rs, n) == rs[Min(n * 999, RunLength(rs) - 1)..]
  {
    if n == 0 {
      assert rs[0..] == rs;
    } else {
      PassesClosedForm(rs, n - 1);
      DroppedAdds(RunLength(rs), n);
      PassAfterDrop(rs, Dropped(RunLength(rs), n - 1), Dropped(RunLength(rs), n));
    }
  }

  // Nothing left to prune: a single key, or a reported gap right after the first key.
  ghost predicate Settled(rs: seq<Rec>) {
    && Pruned(rs) == rs
    && (|rs| > 1 ==> FirstGap(rs) == Some(Gap(rs[0], rs[1])))
  }

  lemma RunOfOneSettled(rs: seq<Rec>)
    requires |rs| > 0 && RunLength(rs) == 1
    ensures Settled(rs)
  {
    PrunedDrops(rs);
    RunLengthOfTake(rs, |Window(rs)|);
    assert rs[0..] == rs;
  }

  /** On k keys, ceil((k - 1) / 999) passes always reach the settled form. */
  lemma PassesSettle(rs: seq<Rec>, n: nat)
    requires 0 < |rs| <= n * 999 + 1
    ensures Settled(Passes(rs, n))
  {
    PassesClosedForm(rs, n);
    RunLengthOfDrop(rs, Dropped(RunLength(rs), n));
    RunOfOneSettled(Passes(rs, n));
  }

  /** A pass after n passes still drops keys exactly while the n passes fall short of the leading run. */
  lemma PassesEffective(rs: seq<Rec>, n: nat)
    requires |rs| > 0
    ensures Pruned(Passes(rs, n)) != Passes(rs, n) <==> n * 999 < RunLength(rs) - 1
  {
    PassesClosedForm(rs, n);
    RunLengthOfDrop(rs, Dropped(RunLength(rs), n));
    PrunedDrops(Passes(rs, n));
  }

  // The namespace after some completions are recorded.
  function Recorded(rs: seq<Rec>, more: seq<Rec>): seq<Rec>
    decreases |more|
  {
    if |more| == 0 then rs else Recorded(Insert(rs, more[0]), more[1..])
  }

  lemma {:induction false} RecordedKeys(rs: seq<Rec>, more: seq<Rec>)
    requires Ascending(rs)
    ensures Ascending(Recorded(rs, more))
    ensures Keys(Recorded(rs, more)) == Keys(rs) + Keys(more)
    decreases |more|
  {
    if |more| > 0 {
      InsertBinds(rs, more[0]);
      InsertKeys(rs, more[0]);
      RecordedKeys(Insert(rs, more[0]), more[1..]);
      assert more == [more[0]] + more[1..];
      assert Keys(more) == {more[0].number} + Keys(more[1..]);
    }
  }

  lemma EndsAreExtremes(rs: seq<Rec>, lo: nat, hi: nat)
    requires Ascending(rs)
    requires lo in Keys(rs) && hi in Keys(rs)
    requires forall k | k in Keys(rs) :: lo <= k <= hi
    ensures |rs| > 0 && rs[0].number == lo && rs[|rs| - 1].number == hi
  {
    var a :| a in rs && a.number == lo;
    var b :| b in rs && b.number == hi;
    assert rs[0].number in Keys(rs) && rs[|rs| - 1].number in Keys(rs);
    var i :| 0 <= i < |rs| && rs[i] == a;
    var j :| 0 <= j < |rs| && rs[j] == b;
  }

  lemma FirstTwo(rs: seq<Rec>, lo: nat)
    requires Ascending(rs) && |rs| > 0 && rs[0].number == lo && lo + 1 in Keys(rs)
    ensures |rs| > 1 && rs[1].number == lo + 1 && RunLength(Window(rs)) > 1
  {
    var x :| x in rs && x.number == lo + 1;
    var i :| 0 <= i < |rs| && rs[i] == x;
    assert rs[1].number == lo + 1;
    var w := Window(rs);
    assert w[0] == rs[0] && w[1] == rs[1];
  }

  lemma NextPassMoves(rs: seq<Rec>, first: nat, last: nat)
    requires Ascending(rs) && first in Keys(rs) && first + 1 in Keys(rs) && last in Keys(rs)
    requires forall k | k in Keys(rs) :: first <= k <= last
    ensures |Pruned(rs)| > 0 && Pruned(rs)[0].number > first && Pruned(rs)[|Pruned(rs)| - 1].number == last
  {
    EndsAreExtremes(rs, first, last);
    FirstTwo(rs, first);
    PrunedKeepsRunEnd(rs);
  }

  lemma SettledHole(rs: seq<Rec>)
    requires Ascending(rs) && |rs| > 1 && Settled(rs)
    ensures rs[0].number + 1 < rs[1].number
  {
    FirstGapIsHole(rs);
  }

  lemma FilledPassMoves(rs: seq<Rec>, fill: set<nat>, all: seq<Rec>)
    requires Ascending(rs) && |rs| > 1 && Settled(rs)
    requires forall k :: k in fill <==> rs[0].number < k < rs[1].number
    requires Ascending(all) && Keys(all) == Keys(rs) + fill
    ensures |Pruned(all)| > 0 && Pruned(all)[0].number > rs[0].number
    ensures Pruned(all)[|Pruned(all)| - 1].number == rs[|rs| - 1].number
  {
    var first, last := rs[0].number, rs[|rs| - 1].number;
    KeyBounds(rs);
    SettledHole(rs);
    assert first + 1 in fill;
    forall k | k in Keys(all) ensures first <= k <= last {
      assert k in Keys(rs) || k in fill;
    }
    NextPassMoves(all, first, last);
  }

  /** Completing a whole reported gap makes the next pass move the first key up while the last key stays. */
  lemma FilledGapShrinks(rs: seq<Rec>, fill: seq<Rec>)
    requires Ascending(rs) && |rs| > 1 && Settled(rs)
    requires forall k :: k in Keys(fill) <==> rs[0].number < k < rs[1].number
    ensures var next := Pruned(Recorded(rs, fill));
            |next| > 0 && next[0].number > rs[0].number && next[|next| - 1].number == rs[|rs| - 1].number
  {
    RecordedKeys(rs, fill);
    FilledPassMoves(rs, Keys(fill), Recorded(rs, fill));
  }
}
