/** A sequence-number namespace read as numbers: records in ascending order of sequence number. */
module Records {
  datatype Rec = Rec(number: nat, height: nat)

  ghost predicate Ascending(rs: seq<Rec>) {
    forall i, j | 0 <= i < j < |rs| :: rs[i].number < rs[j].number
  }

  ghost function Keys(rs: seq<Rec>): set<nat> {
    set r | r in rs :: r.number
  }

  function Seek(rs: seq<Rec>, key: nat): (i: nat)
    ensures i <= |rs|
    ensures forall j | 0 <= j < i :: rs[j].number < key
    ensures i < |rs| ==> key <= rs[i].number
  {
    if |rs| == 0 || key <= rs[0].number then 0 else 1 + Seek(rs[1..], key)
  }

  predicate Has(rs: seq<Rec>, key: nat) {
    var i := Seek(rs, key); i < |rs| && rs[i].number == key
  }

  // The records below and above a key.
  function Low(rs: seq<Rec>, key: nat): seq<Rec> { rs[..Seek(rs, key)] }

  function High(rs: seq<Rec>, key: nat): seq<Rec> { rs[Seek(rs, key) + if Has(rs, key) then 1 else 0..] }

  function Insert(rs: seq<Rec>, r: Rec): seq<Rec> {
    Low(rs, r.number) + [r] + High(rs, r.number)
  }

  function Remove(rs: seq<Rec>, key: nat): seq<Rec> {
    Low(rs, key) + High(rs, key)
  }

  lemma SplitAt(rs: seq<Rec>, i: nat, k: nat)
    requires Ascending(rs) && i <= k <= |rs|
    ensures Ascending(rs[..i]) && Ascending(rs[k..])
    ensures forall r :: r in rs[..i] <==> exists j | 0 <= j < i :: rs[j] == r
    ensures forall r :: r in rs[k..] <==> exists j | k <= j < |rs| :: rs[j] == r
  {
    forall r ensures r in rs[k..] <==> exists j | k <= j < |rs| :: rs[j] == r {
      if j :| k <= j < |rs| && rs[j] == r { assert rs[k..][j - k] == r; }
    }
  }

  lemma SeekSplits(rs: seq<Rec>, key: nat)
    requires Ascending(rs)
    ensures Ascending(Low(rs, key)) && Ascending(High(rs, key))
    ensures forall r :: r in Low(rs, key) <==> r in rs && r.number < key
    ensures forall r :: r in High(rs, key) <==> r in rs && key < r.number
  {
    SplitAt(rs, Seek(rs, key), Seek(rs, key) + if Has(rs, key) then 1 else 0);
  }

  lemma Splice(low: seq<Rec>, high: seq<Rec>)
    requires Ascending(low) && Ascending(high)
    requires forall x, y | x in low && y in high :: x.number < y.number
    ensures Ascending(low + high)
  {
    var both := low + high;
    forall i, j | 0 <= i < j < |both| ensures both[i].number < both[j].number {
      if i < |low| <= j { assert both[i] in low && both[j] in high; }
    }
  }

  lemma InsertBinds(rs: seq<Rec>, r: Rec)
    requires Ascending(rs)
    ensures Ascending(Insert(rs, r))
    ensures forall x :: x in Insert(rs, r) <==> x == r || (x in rs && x.number != r.number)
  {
    SeekSplits(rs, r.number);
    Splice(Low(rs, r.number), [r]);
    Splice(Low(rs, r.number) + [r], High(rs, r.number));
  }

  lemma RemoveUnbinds(rs: seq<Rec>, key: nat)
    requires Ascending(rs)
    ensures Ascending(Remove(rs, key))
    ensures forall x :: x in Remove(rs, key) <==> x in rs && x.number != key
  {
    SeekSplits(rs, key);
    Splice(Low(rs, key), High(rs, key));
  }

  lemma InsertKeys(rs: seq<Rec>, r: Rec)
    requires Ascending(rs)
    ensures Keys(Insert(rs, r)) == Keys(rs) + {r.number}
  {
    InsertBinds(rs, r);
    var out := Insert(rs, r);
    assert r in out;
    forall k ensures k in Keys(out) <==> k in Keys(rs) || k == r.number {
      if k in Keys(rs) && k != r.number {
        var x :| x in rs && x.number == k;
        assert x in out;
      }
    }
  }

  lemma RemoveKeys(rs: seq<Rec>, key: nat)
    requires Ascending(rs)
    ensures Keys(Remove(rs, key)) == Keys(rs) - {key}
  {
    RemoveUnbinds(rs, key);
    var out := Remove(rs, key);
    forall k ensures k in Keys(out) <==> k in Keys(rs) && k != key {
      if k in Keys(rs) && k != key {
        var x :| x in rs && x.number == k;
        assert x in out;
      }
    }
  }

  lemma KeyBounds(rs: seq<Rec>)
    requires Ascending(rs) && |rs| > 0
    ensures rs[0].number in Keys(rs) && rs[|rs| - 1].number in Keys(rs)
    ensures forall k | k in Keys(rs) :: rs[0].number <= k <= rs[|rs| - 1].number
  {
    assert rs[0] in rs && rs[|rs| - 1] in rs;
    forall k | k in Keys(rs) ensures rs[0].number <= k <= rs[|rs| - 1].number {
      var r :| r in rs && r.number == k;
    }
  }
}
