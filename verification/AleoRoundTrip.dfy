/** Reading a printed Aleo packet gives the packet back, and exactly when. */
module AleoRoundTrip {
  import opened AleoPacket
  import opened AleoPrinter
  import opened AleoTokens
  import opened BigEndian
  import opened Text
  import opened Wrappers

  // ---------- What the scan makes of a layout ----------

  // The kinds of a layout's tokens; the two text addresses, at 8 and 47, may be of any kind.
  predicate Laid(kinds: seq<Kind>) {
    && |kinds| == 118
    && kinds[0] == Version && kinds[1] == Other && kinds[2] == Sequence && kinds[3] == Other
    && kinds[4] == Source && kinds[5] == ChainId && kinds[6] == Other && kinds[7] == Addr
    && kinds[9] == Destination && kinds[10] == ChainId && kinds[11] == Other && kinds[12] == Addr
    && Numbers(kinds, 13, 45)
    && kinds[45] == Message && kinds[46] == Sender && kinds[48] == DestToken
    && Numbers(kinds, 49, 81)
    && kinds[81] == Amount && kinds[82] == Other && kinds[83] == Receiver
    && Numbers(kinds, 84, 116)
    && kinds[116] == Height && kinds[117] == Other
  }

  predicate Numbers(kinds: seq<Kind>, from: nat, to: nat)
    requires to <= |kinds|
  {
    forall i | from <= i < to :: kinds[i] == Other
  }

  lemma {:induction false} WindowSkips(msgs: seq<string>, kinds: seq<Kind>, place: Place, j: nat, k: nat, end: nat, raw: Raw)
    requires |kinds| == |msgs| && j <= k <= end <= |msgs| && Numbers(kinds, j, k)
    ensures Window(msgs, kinds, place, j, end, raw) == Window(msgs, kinds, place, k, end, raw)
    decreases k - j
  {
    if j < k { WindowSkips(msgs, kinds, place, j + 1, k, end, raw); }
  }

  lemma {:induction false} ScanSkips(msgs: seq<string>, kinds: seq<Kind>, m: nat, n: nat, raw: Raw)
    requires |kinds| == |msgs| && m <= n <= |msgs|
    requires forall i | m <= i < n :: kinds[i] !in REQUIRED
    ensures Scan(msgs, kinds, m, raw) == Scan(msgs, kinds, n, raw)
    decreases n - m
  {
    if m < n { ScanSkips(msgs, kinds, m + 1, n, raw); }
  }

  lemma VisitThenSkip(msgs: seq<string>, kinds: seq<Kind>, m: nat, n: nat, raw: Raw, next: Raw)
    requires |kinds| == |msgs| && m < n <= |msgs| && Visit(msgs, kinds, m, raw) == Some(next)
    requires forall i | m < i < n :: kinds[i] !in REQUIRED
    ensures Scan(msgs, kinds, m, raw) == Scan(msgs, kinds, n, next)
  {
    ScanSkips(msgs, kinds, m + 1, n, next);
  }

  lemma SourceWindow(msgs: seq<string>, kinds: seq<Kind>, raw: Raw)
    requires |kinds| == |msgs| && Laid(kinds)
    ensures Window(msgs, kinds, AtSource, 5, 9, raw) ==
            if kinds[8] in {ChainId, Addr} then None
            else Some(raw.(sourceChain := msgs[6], sourceAddress := msgs[8]))
  {
    var r5 := raw.(sourceChain := msgs[6]);
    var r7 := r5.(sourceAddress := msgs[8]);
    assert Window(msgs, kinds, AtSource, 5, 9, raw) == Window(msgs, kinds, AtSource, 6, 9, r5);
    assert Window(msgs, kinds, AtSource, 6, 9, r5) == Window(msgs, kinds, AtSource, 7, 9, r5);
    assert Window(msgs, kinds, AtSource, 7, 9, r5) == Window(msgs, kinds, AtSource, 8, 9, r7);
    assert Window(msgs, kinds, AtSource, 9, 9, r7) == Some(r7);
  }

  // A destination window over the destination's fields, from its first or from the token before it.
  lemma DestinationWindow(msgs: seq<string>, kinds: seq<Kind>, j: nat, raw: Raw)
    requires |kinds| == |msgs| && Laid(kinds) && (j == 9 || j == 10)
    ensures Window(msgs, kinds, AtDestination, j, j + 35, raw) ==
            Some(raw.(destChain := msgs[11], destAddress := Spaced(msgs, 13)))
  {
    var end := j + 35;
    var r10 := raw.(destChain := msgs[11]);
    var r12 := r10.(destAddress := Spaced(msgs, 13));
    assert j == 9 ==> Window(msgs, kinds, AtDestination, 9, end, raw) == Window(msgs, kinds, AtDestination, 10, end, raw);
    assert Window(msgs, kinds, AtDestination, 10, end, raw) == Window(msgs, kinds, AtDestination, 11, end, r10);
    assert Window(msgs, kinds, AtDestination, 11, end, r10) == Window(msgs, kinds, AtDestination, 12, end, r10);
    assert Window(msgs, kinds, AtDestination, 12, end, r10) == Window(msgs, kinds, AtDestination, 13, end, r12);
    WindowSkips(msgs, kinds, AtDestination, 13, end, end, r12);
  }

  // A message window from the amount on.
  lemma MessageWindowBack(msgs: seq<string>, kinds: seq<Kind>, end: nat, raw: Raw)
    requires |kinds| == |msgs| && Laid(kinds) && 116 <= end <= 118
    ensures Window(msgs, kinds, AtMessage, 81, end, raw) ==
            Some(raw.(amount := msgs[82], receiver := Spaced(msgs, 84)))
  {
    var r81 := raw.(amount := msgs[82]);
    var r83 := r81.(receiver := Spaced(msgs, 84));
    assert Window(msgs, kinds, AtMessage, 81, end, raw) == Window(msgs, kinds, AtMessage, 82, end, r81);
    WindowSkips(msgs, kinds, AtMessage, 82, 83, end, r81);
    assert Window(msgs, kinds, AtMessage, 83, end, r81) == Window(msgs, kinds, AtMessage, 84, end, r83);
    WindowSkips(msgs, kinds, AtMessage, 84, 116, end, r83);
    if end >= 117 {
      assert Window(msgs, kinds, AtMessage, 116, end, r83) == Window(msgs, kinds, AtMessage, 117, end, r83);
    }
    assert Window(msgs, kinds, AtMessage, end, end, r83) == Some(r83);
  }

  // A message window from the token's name on.
  lemma MessageWindowEnd(msgs: seq<string>, kinds: seq<Kind>, end: nat, raw: Raw)
    requires |kinds| == |msgs| && Laid(kinds) && 116 <= end <= 118
    ensures Window(msgs, kinds, AtMessage, 48, end, raw) ==
            Some(raw.(token := Spaced(msgs, 49), amount := msgs[82], receiver := Spaced(msgs, 84)))
  {
    var r48 := raw.(token := Spaced(msgs, 49));
    assert Window(msgs, kinds, AtMessage, 48, end, raw) == Window(msgs, kinds, AtMessage, 49, end, r48);
    WindowSkips(msgs, kinds, AtMessage, 49, 81, end, r48);
    MessageWindowBack(msgs, kinds, end, r48);
  }

  lemma MessageWindow(msgs: seq<string>, kinds: seq<Kind>, raw: Raw)
    requires |kinds| == |msgs| && Laid(kinds)
    ensures Window(msgs, kinds, AtMessage, 46, 116, raw) ==
            Some(raw.(sender := if kinds[47] == Sender then msgs[48] else msgs[47], token := Spaced(msgs, 49),
                      amount := msgs[82], receiver := Spaced(msgs, 84)))
  {
    var r46 := raw.(sender := msgs[47]);
    assert Window(msgs, kinds, AtMessage, 46, 116, raw) == Window(msgs, kinds, AtMessage, 47, 116, r46);
    var r47 := Assign(msgs, kinds, AtMessage, 47, 116, r46).value;
    assert Window(msgs, kinds, AtMessage, 47, 116, r46) == Window(msgs, kinds, AtMessage, 48, 116, r47);
    MessageWindowEnd(msgs, kinds, 116, r47);
  }

  // A message window that fits touches no field but the message's.
  predicate SameOutsideMessage(a: Raw, b: Raw) {
    b == a.(token := b.token, sender := b.sender, receiver := b.receiver, amount := b.amount)
  }

  lemma {:induction false} MessageWindowFits(msgs: seq<string>, kinds: seq<Kind>, j: nat, end: nat, raw: Raw)
    requires |kinds| == |msgs| && j < end && end + 32 <= |msgs| && kinds[end - 1] == Other
    ensures var r := Window(msgs, kinds, AtMessage, j, end, raw); r.Some? && SameOutsideMessage(raw, r.value)
    decreases end - j
  {
    var next := Assign(msgs, kinds, AtMessage, j, end, raw);
    assert next.Some? && SameOutsideMessage(raw, next.value);
    if j + 1 < end { MessageWindowFits(msgs, kinds, j + 1, end, next.value); }
  }

  lemma ScanHead(msgs: seq<string>, kinds: seq<Kind>, raw: Raw)
    requires |kinds| == |msgs| && Laid(kinds)
    ensures Scan(msgs, kinds, 0, raw) == Scan(msgs, kinds, 4, raw.(version := msgs[1], sequence := msgs[3]))
  {
    var r0 := raw.(version := msgs[1]);
    var r2 := r0.(sequence := msgs[3]);
    assert Scan(msgs, kinds, 0, raw) == Scan(msgs, kinds, 1, r0);
    ScanSkips(msgs, kinds, 1, 2, r0);
    assert Scan(msgs, kinds, 2, r0) == Scan(msgs, kinds, 3, r2);
    ScanSkips(msgs, kinds, 3, 4, r2);
  }

  lemma VisitSource(msgs: seq<string>, kinds: seq<Kind>, raw: Raw)
    requires |kinds| == |msgs| && Laid(kinds)
    ensures Visit(msgs, kinds, 4, raw) ==
            if kinds[8] in {ChainId, Addr} then None else Some(raw.(sourceChain := msgs[6], sourceAddress := msgs[8]))
  {
    SourceWindow(msgs, kinds, raw);
  }

  lemma ScanSource(msgs: seq<string>, kinds: seq<Kind>, raw: Raw)
    requires |kinds| == |msgs| && Laid(kinds)
    ensures Scan(msgs, kinds, 4, raw) ==
            if kinds[8] in {ChainId, Addr} then None
            else Scan(msgs, kinds, 8, raw.(sourceChain := msgs[6], sourceAddress := msgs[8]))
  {
    VisitSource(msgs, kinds, raw);
    if kinds[8] !in {ChainId, Addr} {
      ScanSkips(msgs, kinds, 5, 8, raw.(sourceChain := msgs[6], sourceAddress := msgs[8]));
    }
  }

  // The tokens before the source address.
  lemma ScanFront(msgs: seq<string>, kinds: seq<Kind>, raw: Raw)
    requires |kinds| == |msgs| && Laid(kinds)
    ensures Scan(msgs, kinds, 0, raw) ==
            if kinds[8] in {ChainId, Addr} then None
            else Scan(msgs, kinds, 8, raw.(version := msgs[1], sequence := msgs[3], sourceChain := msgs[6],
                                           sourceAddress := msgs[8]))
  {
    ScanHead(msgs, kinds, raw);
    ScanSource(msgs, kinds, raw.(version := msgs[1], sequence := msgs[3]));
  }

  // The source address itself, of whatever kind: what it may spoil for good.
  lemma VisitSourceAddress(msgs: seq<string>, kinds: seq<Kind>, raw: Raw)
    requires |kinds| == |msgs| && Laid(kinds)
    ensures var r := Visit(msgs, kinds, 8, raw);
            && (r.None? <==> kinds[8] == Source)
            && (r.Some? ==>
                  && r.value.version == (if kinds[8] == Version then msgs[9] else raw.version)
                  && r.value.sequence == (if kinds[8] == Sequence then msgs[9] else raw.sequence)
                  && r.value.sourceChain == raw.sourceChain && r.value.sourceAddress == raw.sourceAddress)
  {
    match kinds[8]
    case Source => WindowSkipsToAddr(msgs, kinds, raw);
    case Destination => DestinationWindow(msgs, kinds, 9, raw);
    case Message => MessageWindowFits(msgs, kinds, 9, 79, raw);
    case _ =>
  }

  lemma WindowSkipsToAddr(msgs: seq<string>, kinds: seq<Kind>, raw: Raw)
    requires |kinds| == |msgs| && Laid(kinds)
    ensures Window(msgs, kinds, AtSource, 9, 13, raw) == None
  {
    var r10 := raw.(sourceChain := msgs[11]);
    assert Window(msgs, kinds, AtSource, 9, 13, raw) == Window(msgs, kinds, AtSource, 10, 13, raw);
    assert Window(msgs, kinds, AtSource, 10, 13, raw) == Window(msgs, kinds, AtSource, 11, 13, r10);
    assert Window(msgs, kinds, AtSource, 11, 13, r10) == Window(msgs, kinds, AtSource, 12, 13, r10);
  }

  lemma NoFieldInDestination(kinds: seq<Kind>)
    requires Laid(kinds)
    ensures forall i | 9 < i < 45 :: kinds[i] !in REQUIRED
  {
  }

  lemma VisitDestination(msgs: seq<string>, kinds: seq<Kind>, raw: Raw)
    requires |kinds| == |msgs| && Laid(kinds)
    ensures Visit(msgs, kinds, 9, raw) == Some(raw.(destChain := msgs[11], destAddress := Spaced(msgs, 13)))
  {
    DestinationWindow(msgs, kinds, 10, raw);
  }

  lemma ScanDestination(msgs: seq<string>, kinds: seq<Kind>, raw: Raw)
    requires |kinds| == |msgs| && Laid(kinds)
    ensures Scan(msgs, kinds, 9, raw) ==
            Scan(msgs, kinds, 45, raw.(destChain := msgs[11], destAddress := Spaced(msgs, 13)))
  {
    NoFieldInDestination(kinds);
    VisitDestination(msgs, kinds, raw);
    VisitThenSkip(msgs, kinds, 9, 45, raw, raw.(destChain := msgs[11], destAddress := Spaced(msgs, 13)));
  }

  lemma VisitMessage(msgs: seq<string>, kinds: seq<Kind>, raw: Raw)
    requires |kinds| == |msgs| && Laid(kinds)
    ensures Visit(msgs, kinds, 45, raw) ==
            Some(raw.(sender := if kinds[47] == Sender then msgs[48] else msgs[47], token := Spaced(msgs, 49),
                      amount := msgs[82], receiver := Spaced(msgs, 84)))
  {
    MessageWindow(msgs, kinds, raw);
  }

  lemma ScanMessage(msgs: seq<string>, kinds: seq<Kind>, raw: Raw)
    requires |kinds| == |msgs| && Laid(kinds)
    ensures Scan(msgs, kinds, 45, raw) ==
            Scan(msgs, kinds, 47, raw.(sender := if kinds[47] == Sender then msgs[48] else msgs[47],
                                       token := Spaced(msgs, 49), amount := msgs[82], receiver := Spaced(msgs, 84)))
  {
    VisitMessage(msgs, kinds, raw);
    VisitThenSkip(msgs, kinds, 45, 47, raw,
                  raw.(sender := if kinds[47] == Sender then msgs[48] else msgs[47], token := Spaced(msgs, 49),
                       amount := msgs[82], receiver := Spaced(msgs, 84)));
  }

  // The sender itself, of whatever kind.
  lemma VisitSender(msgs: seq<string>, kinds: seq<Kind>, raw: Raw)
    requires |kinds| == |msgs| && Laid(kinds)
    requires raw.token == Spaced(msgs, 49) && raw.amount == msgs[82] && raw.receiver == Spaced(msgs, 84)
    ensures var r := Visit(msgs, kinds, 47, raw);
            && r.Some?
            && r.value == raw.(version := if kinds[47] == Version then msgs[48] else raw.version,
                               sequence := if kinds[47] == Sequence then msgs[48] else raw.sequence,
                               height := r.value.height)
  {
    match kinds[47]
    case Source =>
      assert Window(msgs, kinds, AtSource, 48, 52, raw) == Window(msgs, kinds, AtSource, 49, 52, raw);
      WindowSkips(msgs, kinds, AtSource, 49, 52, 52, raw);
    case Destination =>
      assert Window(msgs, kinds, AtDestination, 48, 83, raw) == Window(msgs, kinds, AtDestination, 49, 83, raw);
      WindowSkips(msgs, kinds, AtDestination, 49, 81, 83, raw);
      assert Window(msgs, kinds, AtDestination, 81, 83, raw) == Window(msgs, kinds, AtDestination, 82, 83, raw);
    case Message => MessageWindowEnd(msgs, kinds, 118, raw);
    case _ =>
  }

  lemma ScanEnd(msgs: seq<string>, kinds: seq<Kind>, raw: Raw)
    requires |kinds| == |msgs| && Laid(kinds)
    ensures Scan(msgs, kinds, 48, raw) == Some(raw.(height := msgs[117]))
  {
    ScanSkips(msgs, kinds, 48, 116, raw);
    var r := raw.(height := msgs[117]);
    assert Scan(msgs, kinds, 116, raw) == Scan(msgs, kinds, 117, r);
    ScanSkips(msgs, kinds, 117, 118, r);
  }

  /** The whole scan of a layout, whatever its two text addresses say. */
  lemma ScanLayout(msgs: seq<string>, kinds: seq<Kind>)
    requires |kinds| == |msgs| && Laid(kinds)
    ensures Scan(msgs, kinds, 0, EMPTY) ==
            if kinds[8] in {ChainId, Addr, Source} then None
            else Some(Raw(
                        if kinds[47] == Version then msgs[48] else if kinds[8] == Version then msgs[9] else msgs[1],
                        if kinds[47] == Sequence then msgs[48] else if kinds[8] == Sequence then msgs[9] else msgs[3],
                        msgs[6], msgs[8], msgs[11], Spaced(msgs, 13), Spaced(msgs, 49),
                        if kinds[47] == Sender then msgs[48] else msgs[47], Spaced(msgs, 84), msgs[82], msgs[117]))
  {
    ScanFront(msgs, kinds, EMPTY);
    if kinds[8] !in {ChainId, Addr} {
      var r0 := EMPTY.(version := msgs[1], sequence := msgs[3], sourceChain := msgs[6], sourceAddress := msgs[8]);
      VisitSourceAddress(msgs, kinds, r0);
      if kinds[8] != Source {
        var r8 := Visit(msgs, kinds, 8, r0).value;
        ScanDestination(msgs, kinds, r8);
        var r9 := r8.(destChain := msgs[11], destAddress := Spaced(msgs, 13));
        ScanMessage(msgs, kinds, r9);
        var r46 := r9.(sender := if kinds[47] == Sender then msgs[48] else msgs[47],
                       token := Spaced(msgs, 49), amount := msgs[82], receiver := Spaced(msgs, 84));
        VisitSender(msgs, kinds, r46);
        ScanEnd(msgs, kinds, Visit(msgs, kinds, 47, r46).value);
      }
    }
  }

  // ---------- The kinds of a printed packet's tokens ----------

  lemma NamesStartWithLetters(k: Kind)
    requires k != Other
    ensures |NameOf(k)| > 0 && 'a' <= NameOf(k)[0] <= 'z'
  {
  }

  lemma NumberIsOther(s: string)
    requires |s| > 0 && !('a' <= s[0] <= 'z')
    ensures KindOf(s) == Other
  {
    var k := KindOf(s);
    if k != Other {
      assert s == NameOf(k);
      NamesStartWithLetters(k);
      assert false;
    }
  }

  lemma WordsAreNumbers(b: seq<nat>)
    ensures forall i | 0 <= i < |b| :: KindOf(Words(b)[i]) == Other
  {
    forall i | 0 <= i < |b| ensures KindOf(Words(b)[i]) == Other {
      assert Words(b)[i][0] == Dec(b[i])[0];
      NumberIsOther(Words(b)[i]);
    }
  }

  lemma DecimalIsOther(n: int, suffix: string)
    ensures KindOf(Decimal(n) + suffix) == Other
  {
    assert (Decimal(n) + suffix)[0] == Decimal(n)[0];
    NumberIsOther(Decimal(n) + suffix);
  }

  // Where the parts of a layout lie.
  lemma Parts(a: seq<string>, b: seq<string>, c: seq<string>, d: seq<string>, e: seq<string>)
    requires |a| == 4 && |b| == 5 && |c| == 36 && |d| == 71 && |e| == 2
    ensures var s := a + b + c + d + e;
            && |s| == 118 && s[..4] == a && s[4..9] == b && s[9..45] == c && s[45..116] == d && s[116..] == e
  {
  }

  lemma MessageParts(a: seq<string>, token: seq<string>, n: string, v: string, r: string, receiver: seq<string>)
    requires |a| == 4 && |token| == 32 && |receiver| == 32
    ensures var s := a + token + [n] + [v] + [r] + receiver;
            && |s| == 71 && s[..4] == a && s[4..36] == token && s[36..39] == [n] + [v] + [r] && s[39..] == receiver
  {
  }

  // The layout seen from the scan.
  predicate LaidOut(p: Packet, msgs: seq<string>) {
    && |msgs| == 118
    && msgs[..4] == [NameOf(Version), Dec(p.version) + "u8", NameOf(Sequence), Dec(p.sequence) + "u64"]
    && msgs[4..9] == [NameOf(Source), NameOf(ChainId), Decimal(p.sourceChain) + "u128", NameOf(Addr)] + [p.sourceAddress]
    && msgs[9..13] == [NameOf(Destination), NameOf(ChainId), Decimal(p.destChain) + "u128", NameOf(Addr)]
    && msgs[13..45] == Words(Padded(p.destAddress))
    && msgs[45..49] == [NameOf(Message), NameOf(Sender), p.sender, NameOf(DestToken)]
    && msgs[49..81] == Words(Padded(p.token))
    && msgs[81..84] == [NameOf(Amount)] + [Decimal(p.amount) + "u128"] + [NameOf(Receiver)]
    && msgs[84..116] == Words(Padded(p.receiver))
    && msgs[116..] == [NameOf(Height)] + [Dec(p.height) + "u64"]
  }

  lemma LayoutLaidOut(p: Packet)
    ensures LaidOut(p, Layout(p))
  {
    NamesSpelled();
    hide NameOf, Decimal, Dec, Words;
    Assembled([NameOf(Version), Dec(p.version) + "u8", NameOf(Sequence), Dec(p.sequence) + "u64"],
              [NameOf(Source), NameOf(ChainId), Decimal(p.sourceChain) + "u128", NameOf(Addr)] + [p.sourceAddress],
              [NameOf(Destination), NameOf(ChainId), Decimal(p.destChain) + "u128", NameOf(Addr)],
              Words(Padded(p.destAddress)),
              [NameOf(Message), NameOf(Sender), p.sender, NameOf(DestToken)], Words(Padded(p.token)),
              NameOf(Amount), Decimal(p.amount) + "u128", NameOf(Receiver), Words(Padded(p.receiver)),
              [NameOf(Height)] + [Dec(p.height) + "u64"]);
  }

  lemma Assembled(
    a: seq<string>, b: seq<string>, c0: seq<string>, c1: seq<string>, d0: seq<string>, token: seq<string>, n: string,
    v: string, r: string, receiver: seq<string>, e: seq<string>)
    requires |a| == 4 && |b| == 5 && |c0| == 4 && |c1| == 32 && |d0| == 4 && |token| == 32 && |receiver| == 32 && |e| == 2
    ensures var s := a + b + (c0 + c1) + (d0 + token + [n] + [v] + [r] + receiver) + e;
            && |s| == 118 && s[..4] == a && s[4..9] == b && s[9..13] == c0 && s[13..45] == c1 && s[45..49] == d0
            && s[49..81] == token && s[81..84] == [n] + [v] + [r] && s[84..116] == receiver && s[116..] == e
  {
    var d := d0 + token + [n] + [v] + [r] + receiver;
    MessageParts(d0, token, n, v, r, receiver);
    Parts(a, b, c0 + c1, d, e);
    Slices(a + b + (c0 + c1) + d + e, c0 + c1, c0, c1, d);
  }

  lemma Slices(msgs: seq<string>, c: seq<string>, c0: seq<string>, c1: seq<string>, d: seq<string>)
    requires |msgs| == 118 && msgs[9..45] == c && msgs[45..116] == d
    requires |c0| == 4 && |c1| == 32 && c == c0 + c1
    ensures msgs[9..13] == c0 && msgs[13..45] == c1
    ensures msgs[45..49] == d[..4] && msgs[49..81] == d[4..36] && msgs[81..84] == d[36..39] && msgs[84..116] == d[39..]
  {
    assert c[..4] == c0 && c[4..] == c1;
    SliceOfSlice(msgs, 9, 45, 0, 4);
    SliceOfSlice(msgs, 9, 45, 4, 36);
    SliceOfSlice(msgs, 45, 116, 0, 4);
    SliceOfSlice(msgs, 45, 116, 4, 36);
    SliceOfSlice(msgs, 45, 116, 36, 39);
    SliceOfSlice(msgs, 45, 116, 39, 71);
  }

  lemma SliceOfSlice(s: seq<string>, from: nat, to: nat, i: nat, j: nat)
    requires i <= j && from + j <= to <= |s|
    ensures s[from..to][i..j] == s[from + i..from + j]
  {
    var inner, outer := s[from..to][i..j], s[from + i..from + j];
    forall k | 0 <= k < j - i ensures inner[k] == outer[k] {
      assert inner[k] == s[from..to][i + k];
    }
    assert inner == outer;
  }

  lemma WordKinds(msgs: seq<string>, from: nat, b: seq<nat>)
    requires from + |b| <= |msgs| && msgs[from..from + |b|] == Words(b)
    ensures Numbers(Kinds(msgs), from, from + |b|)
  {
    WordsAreNumbers(b);
    forall i | from <= i < from + |b| ensures Kinds(msgs)[i] == Other {
      assert msgs[i] == msgs[from..from + |b|][i - from];
    }
  }

  lemma NameKind(msgs: seq<string>, i: nat, k: Kind)
    requires i < |msgs| && k != Other && msgs[i] == NameOf(k)
    ensures Kinds(msgs)[i] == k
  {
    KindOfName(k);
  }

  lemma ChainKinds(p: Packet, msgs: seq<string>)
    requires LaidOut(p, msgs)
    ensures var kinds := Kinds(msgs);
            && kinds[4] == Source && kinds[5] == ChainId && kinds[6] == Other && kinds[7] == Addr
            && kinds[9] == Destination && kinds[10] == ChainId && kinds[11] == Other && kinds[12] == Addr
  {
    var b, c := msgs[4..9], msgs[9..13];
    assert msgs[4] == b[0] && msgs[5] == b[1] && msgs[6] == b[2] && msgs[7] == b[3];
    assert msgs[9] == c[0] && msgs[10] == c[1] && msgs[11] == c[2] && msgs[12] == c[3];
    NameKind(msgs, 4, Source);
    NameKind(msgs, 5, ChainId);
    NameKind(msgs, 7, Addr);
    NameKind(msgs, 9, Destination);
    NameKind(msgs, 10, ChainId);
    NameKind(msgs, 12, Addr);
    DecimalIsOther(p.sourceChain, "u128");
    DecimalIsOther(p.destChain, "u128");
  }

  lemma HeadKinds(p: Packet, msgs: seq<string>)
    requires LaidOut(p, msgs)
    ensures var kinds := Kinds(msgs);
            && kinds[0] == Version && kinds[1] == Other && kinds[2] == Sequence && kinds[3] == Other
            && kinds[116] == Height && kinds[117] == Other
  {
    var a, e := msgs[..4], msgs[116..];
    assert msgs[0] == a[0] && msgs[1] == a[1] && msgs[2] == a[2] && msgs[3] == a[3];
    assert msgs[116] == e[0] && msgs[117] == e[1];
    NameKind(msgs, 0, Version);
    NameKind(msgs, 2, Sequence);
    NameKind(msgs, 116, Height);
    DecimalIsOther(p.version, "u8");
    DecimalIsOther(p.sequence, "u64");
    DecimalIsOther(p.height, "u64");
  }

  lemma MessageKinds(p: Packet, msgs: seq<string>)
    requires LaidOut(p, msgs)
    ensures var kinds := Kinds(msgs);
            && kinds[45] == Message && kinds[46] == Sender && kinds[48] == DestToken
            && kinds[81] == Amount && kinds[82] == Other && kinds[83] == Receiver
  {
    var d, n := msgs[45..49], msgs[81..84];
    assert msgs[45] == d[0] && msgs[46] == d[1] && msgs[48] == d[3];
    assert msgs[81] == n[0] && msgs[82] == n[1] && msgs[83] == n[2];
    NameKind(msgs, 45, Message);
    NameKind(msgs, 46, Sender);
    NameKind(msgs, 48, DestToken);
    NameKind(msgs, 81, Amount);
    NameKind(msgs, 83, Receiver);
    DecimalIsOther(p.amount, "u128");
  }

  lemma LaidOutKinds(p: Packet, msgs: seq<string>)
    requires LaidOut(p, msgs)
    ensures Laid(Kinds(msgs))
  {
    HeadKinds(p, msgs);
    ChainKinds(p, msgs);
    MessageKinds(p, msgs);
    WordKinds(msgs, 13, Padded(p.destAddress));
    WordKinds(msgs, 49, Padded(p.token));
    WordKinds(msgs, 84, Padded(p.receiver));
  }

  // ---------- Reading the values back ----------

  lemma ReadDecimal(n: int, number: string -> Option<nat>)
    requires number(Dec(Abs(n))) == Some(Abs(n))
    ensures Signed(Decimal(n), number) == Some(n)
  {
    if n < 0 {
      assert Decimal(n)[1..] == Dec(-n);
    } else {
      assert '0' <= Dec(n)[0] <= '9';
    }
  }

  lemma StripSuffix(n: int, suffix: string)
    requires suffix != "" && suffix[0] == 'u'
    ensures RemoveFirst(Decimal(n) + suffix, suffix) == Decimal(n)
  {
    var s := Decimal(n);
    assert s + suffix == s + suffix + "";
    RemoveFirstPast(s, suffix, "");
    assert s + "" == s;
  }

  lemma ReadNumber(n: int, suffix: string)
    requires suffix != "" && suffix[0] == 'u'
    ensures Number(Decimal(n) + suffix, suffix) == Some(n)
  {
    StripSuffix(n, suffix);
    ReadDec(Abs(n));
    ReadDecimal(n, Base10);
  }

  lemma ReadAmount(n: int)
    ensures AmountOf(Decimal(n) + "u128") == Some(n)
  {
    StripSuffix(n, "u128");
    ReadDec(Abs(n));
    ReadDecimal(n, Base0);
  }

  lemma {:induction false} RemoveNothing(s: string, unit: string)
    requires unit != "" && unit[0] !in s
    ensures RemoveFirst(s, unit) == s
  {
    if s != "" {
      assert s[0] in s;
      RemoveNothing(s[1..], unit);
    }
  }

  // A name without a 'u' that ends in a letter is no number.
  lemma NameIsNoNumber(s: string, suffix: string)
    requires suffix != "" && suffix[0] !in s
    requires |s| > 0 && 'a' <= s[0] <= 'z' && 'a' <= s[|s| - 1] <= 'z'
    ensures Number(s, suffix) == None
  {
    RemoveNothing(s, suffix);
  }

  function Decs(ns: seq<nat>): (ws: seq<string>)
    ensures |ws| == |ns|
    ensures forall i | 0 <= i < |ns| :: ws[i] == Dec(ns[i])
  {
    seq(|ns|, i requires 0 <= i < |ns| => Dec(ns[i]))
  }

  lemma WordsTail(ns: seq<nat>)
    requires |ns| > 0
    ensures Words(ns)[1..] == Words(ns[1..]) && Decs(ns)[1..] == Decs(ns[1..])
  {
  }

  // Spaces hold no suffix.
  lemma {:induction false} SpacesPassed(k: nat, s: string)
    ensures Count(Spaces(k) + s, "u8") == Count(s, "u8")
    ensures RemoveAll(Spaces(k) + s, "u8") == Spaces(k) + RemoveAll(s, "u8")
  {
    if k == 0 {
      assert Spaces(0) + s == s && Spaces(0) + RemoveAll(s, "u8") == RemoveAll(s, "u8");
    } else {
      var t := Spaces(k) + s;
      assert t[0] == ' ' && t[1..] == Spaces(k - 1) + s;
      SpacesPassed(k - 1, s);
      assert [' '] + (Spaces(k - 1) + RemoveAll(s, "u8")) == Spaces(k) + RemoveAll(s, "u8");
    }
  }

  // One number and its suffix at the front of a longer text.
  lemma StripWord(word: string, rest: string)
    requires 'u' !in word
    ensures Count(word + "u8" + rest, "u8") == 1 + Count(rest, "u8")
    ensures RemoveAll(word + "u8" + rest, "u8") == word + RemoveAll(rest, "u8")
  {
    CountPast(word, "u8", rest);
    RemoveAllPast(word, "u8", rest);
  }

  lemma StripSeparated(word: string, list: string, tail: string)
    requires 'u' !in word
    ensures Count(word + "u8" + " " + list + tail, "u8") == 1 + Count(list + tail, "u8")
    ensures RemoveAll(word + "u8" + " " + list + tail, "u8") == word + " " + RemoveAll(list + tail, "u8")
  {
    assert word + "u8" + " " + list + tail == word + "u8" + (" " + (list + tail));
    StripWord(word, " " + (list + tail));
    assert " " + (list + tail) == Spaces(1) + (list + tail);
    SpacesPassed(1, list + tail);
    assert word + (Spaces(1) + RemoveAll(list + tail, "u8")) == word + " " + RemoveAll(list + tail, "u8");
  }

  lemma {:induction false} SuffixesStripped(ns: seq<nat>, after: nat)
    ensures Count(Join(Words(ns), " ") + Spaces(after), "u8") == |ns|
    ensures RemoveAll(Join(Words(ns), " ") + Spaces(after), "u8") == Join(Decs(ns), " ") + Spaces(after)
  {
    var tail := Spaces(after);
    assert tail + "" == tail;
    SpacesPassed(after, "");
    if |ns| == 0 {
      assert "" + tail == tail;
    } else {
      WordsTail(ns);
      SuffixesStripped(ns[1..], after);
      if |ns| == 1 {
        StripWord(Dec(ns[0]), tail);
      } else {
        StripSeparated(Dec(ns[0]), Join(Words(ns[1..]), " "), tail);
        assert Dec(ns[0]) + " " + (Join(Decs(ns[1..]), " ") + tail) == Dec(ns[0]) + " " + Join(Decs(ns[1..]), " ") + tail;
      }
    }
  }

  lemma {:induction false} JoinEnds(ns: seq<nat>)
    requires |ns| > 0
    ensures var s := Join(Decs(ns), " "); |s| > 0 && s[0] != ' ' && s[|s| - 1] != ' '
  {
    if |ns| > 1 {
      WordsTail(ns);
      JoinEnds(ns[1..]);
    }
  }

  // Spaces around a text that has none at its ends are trimmed.
  lemma {:induction false} TrimmedAfter(s: string, after: nat)
    requires |s| > 0 && s[0] != ' ' && s[|s| - 1] != ' '
    ensures TrimSpaces(s + Spaces(after)) == s
  {
    if after == 0 {
      assert s + Spaces(0) == s;
    } else {
      var t := s + Spaces(after);
      assert t[0] != ' ' && t[|t| - 1] == ' ' && t[..|t| - 1] == s + Spaces(after - 1);
      TrimmedAfter(s, after - 1);
    }
  }

  lemma {:induction false} Trimmed(before: nat, s: string, after: nat)
    requires |s| > 0 && s[0] != ' ' && s[|s| - 1] != ' '
    ensures TrimSpaces(Spaces(before) + (s + Spaces(after))) == s
  {
    if before == 0 {
      assert Spaces(0) + (s + Spaces(after)) == s + Spaces(after);
      TrimmedAfter(s, after);
    } else {
      var t := Spaces(before) + (s + Spaces(after));
      assert t[0] == ' ' && t[1..] == Spaces(before - 1) + (s + Spaces(after));
      Trimmed(before - 1, s, after);
    }
  }

  // Numbers that are all bytes.
  predicate AllBytes(ns: seq<nat>) { forall i | 0 <= i < |ns| :: ns[i] < 256 }

  function AsBytes(ns: seq<nat>): (b: Bytes)
    requires AllBytes(ns)
    ensures |b| == |ns| && forall i | 0 <= i < |ns| :: b[i] == ns[i]
  {
    seq(|ns|, i requires 0 <= i < |ns| => ns[i])
  }

  lemma {:induction false} ReadNumbers(ns: seq<nat>)
    ensures ParseBytes(Decs(ns)) == if AllBytes(ns) then Some(AsBytes(ns)) else None
  {
    if |ns| > 0 {
      WordsTail(ns);
      ReadNumbers(ns[1..]);
      ReadDec(ns[0]);
      assert ParseByte(Decs(ns)[0]) == if ns[0] < 256 then Some(ns[0]) else None;
      assert AllBytes(ns) <==> ns[0] < 256 && AllBytes(ns[1..]) by {
        assert forall i | 1 <= i < |ns| :: ns[i] == ns[1..][i - 1];
      }
      if AllBytes(ns) { assert [ns[0]] + AsBytes(ns[1..]) == AsBytes(ns); }
    }
  }

  lemma ListParts(ns: seq<nat>, before: nat, after: nat)
    requires |ns| > 0
    ensures var text := Spaces(before) + (Join(Words(ns), " ") + Spaces(after));
            Count(text, "u8") == |ns| && AddressParts(text) == Decs(ns)
  {
    SuffixesStripped(ns, after);
    SpacesPassed(before, Join(Words(ns), " ") + Spaces(after));
    JoinEnds(ns);
    Trimmed(before, Join(Decs(ns), " "), after);
    forall i, k | 0 <= i < |ns| && 0 <= k < |Decs(ns)[i]| ensures Decs(ns)[i][k] != ' ' {
      assert '0' <= Dec(ns[i])[k] <= '9';
    }
    SplitJoin(Decs(ns), ' ');
  }

  /** Any list of numbers with their suffixes, whatever spaces stand around it: it is an address exactly if there are 32
      of them and those after the first twelve are bytes. The address is those bytes; the first twelve are not looked
      at. */
  lemma ReadList(ns: seq<nat>, before: nat, after: nat)
    ensures EthAddressOf(Spaces(before) + (Join(Words(ns), " ") + Spaces(after))) ==
            if |ns| == 32 && AllBytes(ns[12..]) then Some(AsBytes(ns[12..])) else None
  {
    if |ns| == 0 {
      SuffixesStripped(ns, after);
      SpacesPassed(before, Join(Words(ns), " ") + Spaces(after));
    } else {
      ListParts(ns, before, after);
      if |ns| == 32 {
        assert Decs(ns)[12..] == Decs(ns[12..]);
        ReadNumbers(ns[12..]);
        if AllBytes(ns[12..]) { assert AsBytes(ns[12..])[0..] == AsBytes(ns[12..]); }
      }
    }
  }

  /** A 32-byte Aleo address of an Ethereum address, read back from its tokens, is that address. */
  lemma ReadAddress(a: Address)
    ensures EthAddressOf(Join(Words(Padded(a)), " ")) == Some(a)
  {
    var b: seq<nat> := Padded(a);
    var text := Join(Words(b), " ");
    assert Spaces(0) + (text + Spaces(0)) == text;
    ReadList(b, 0, 0);
    assert b[12..] == a && AsBytes(b[12..]) == a;
  }

  // ---------- How numbers may be written ----------

  /** An amount may come in base 16, 8 or 2, marked by its prefix; a leading plus sign is accepted in any number. */
  lemma ReadAmountInBase(n: nat, upper: bool)
    ensures AmountOf("0x" + InBase(n, 16, upper) + "u128") == Some(n)
    ensures AmountOf("0o" + InBase(n, 8, upper) + "u128") == Some(n)
    ensures AmountOf("0b" + InBase(n, 2, upper) + "u128") == Some(n)
  {
    Base0Prefixes(n, upper);
    PrefixedAmount("0x", n, 16, upper);
    PrefixedAmount("0o", n, 8, upper);
    PrefixedAmount("0b", n, 2, upper);
  }

  lemma PrefixedAmount(prefix: string, n: nat, base: nat, upper: bool)
    requires 2 <= base <= 16 && |prefix| == 2 && prefix[0] == '0' && prefix[1] != 'u'
    ensures AmountOf(prefix + InBase(n, base, upper) + "u128") ==
            match Base0(prefix + InBase(n, base, upper)) { case Some(v) => Some(v as int) case None => None }
  {
    var s := prefix + InBase(n, base, upper);
    DigitsOfBase(n, base, upper);
    assert 'u' !in s;
    RemoveFirstPast(s, "u128", "");
    assert s + "u128" == s + "u128" + "" && s + "" == s;
    assert s[0] == '0';
  }

  lemma ReadPlus(n: nat, suffix: string)
    requires suffix != "" && suffix[0] == 'u'
    ensures Number("+" + Dec(n) + suffix, suffix) == Some(n)
  {
    var s := "+" + Dec(n);
    RemoveFirstPast(s, suffix, "");
    assert s + suffix == s + suffix + "" && s + "" == s;
    assert s[1..] == Dec(n);
    ReadDec(n);
  }

  /** A number with its suffix twice, or without a digit, is refused: only one suffix is taken off. */
  lemma TwoSuffixesRefused(n: int, suffix: string)
    requires suffix != "" && suffix[0] == 'u'
    ensures Number(Decimal(n) + suffix + suffix, suffix) == None && Number(suffix, suffix) == None
  {
    RemoveFirstPast(Decimal(n), suffix, suffix);
    var s := Decimal(n) + suffix;
    assert s[|Decimal(n)|] == 'u';
    Base10Iff(s);
    Base10Iff(s[1..]);
    assert s[1..][|Decimal(n)| - 1] == 'u';
    RemoveFirstPast("", suffix, "");
    assert "" + suffix + "" == suffix;
  }

  // ---------- The round trip ----------

  // aleoPacket as the printed text spells it.
  function Spelled(p: Packet): Raw {
    Raw(Dec(p.version) + "u8", Dec(p.sequence) + "u64", Decimal(p.sourceChain) + "u128", p.sourceAddress,
        Decimal(p.destChain) + "u128", Join(Words(Padded(p.destAddress)), " "), Join(Words(Padded(p.token)), " "),
        p.sender, Join(Words(Padded(p.receiver)), " "), Decimal(p.amount) + "u128", Dec(p.height) + "u64")
  }

  // The same text with any numbers at all where the packet holds bounded ones.
  function Respelled(p: Packet, version: int, sequence: int, height: int): Raw {
    Spelled(p).(version := Decimal(version) + "u8", sequence := Decimal(sequence) + "u64", height := Decimal(height) + "u64")
  }

  lemma RespelledBounded(p: Packet, version: int, sequence: int, height: int, raw: Raw)
    requires raw == Respelled(p, version, sequence, height)
    ensures Number(raw.version, "u8") == Some(version) && Number(raw.sequence, "u64") == Some(sequence)
    ensures Number(raw.height, "u64") == Some(height)
  {
    ReadNumber(version, "u8");
    ReadNumber(sequence, "u64");
    ReadNumber(height, "u64");
  }

  lemma RespelledUnbounded(p: Packet, version: int, sequence: int, height: int, raw: Raw)
    requires raw == Respelled(p, version, sequence, height)
    ensures Number(raw.sourceChain, "u128") == Some(p.sourceChain) && Number(raw.destChain, "u128") == Some(p.destChain)
    ensures AmountOf(raw.amount) == Some(p.amount)
  {
    ReadNumber(p.sourceChain, "u128");
    ReadNumber(p.destChain, "u128");
    ReadAmount(p.amount);
  }

  lemma RespelledAddresses(p: Packet, version: int, sequence: int, height: int, raw: Raw)
    requires raw == Respelled(p, version, sequence, height)
    ensures EthAddressOf(raw.destAddress) == Some(p.destAddress) && EthAddressOf(raw.token) == Some(p.token)
    ensures EthAddressOf(raw.receiver) == Some(p.receiver)
    ensures raw.sourceAddress == p.sourceAddress && raw.sender == p.sender
  {
    ReadAddress(p.destAddress);
    ReadAddress(p.token);
    ReadAddress(p.receiver);
  }

  /** The parser does not check bounds: a version, sequence or height of any size and sign is read, and cut down to the
      low bits of its magnitude. */
  lemma ReadOutOfBounds(p: Packet, version: int, sequence: int, height: int, raw: Raw)
    requires raw == Respelled(p, version, sequence, height)
    ensures PacketOf(raw) ==
            Some(p.(version := Abs(version) % 256, sequence := Abs(sequence) % U64_LIMIT, height := Abs(height) % U64_LIMIT))
  {
    RespelledBounded(p, version, sequence, height, raw);
    RespelledUnbounded(p, version, sequence, height, raw);
    RespelledAddresses(p, version, sequence, height, raw);
  }

  lemma InBounds(p: Packet)
    ensures Respelled(p, p.version, p.sequence, p.height) == Spelled(p)
    ensures p.(version := Abs(p.version) % 256, sequence := Abs(p.sequence) % U64_LIMIT, height := Abs(p.height) % U64_LIMIT)
            == p
  {
  }

  lemma ReadSpelled(p: Packet)
    ensures PacketOf(Spelled(p)) == Some(p)
  {
    InBounds(p);
    ReadOutOfBounds(p, p.version, p.sequence, p.height, Respelled(p, p.version, p.sequence, p.height));
  }

  // What the scan finds at each place it reads.
  lemma PlacesRead(p: Packet, msgs: seq<string>)
    requires LaidOut(p, msgs)
    ensures msgs[9] == NameOf(Destination) && msgs[48] == NameOf(DestToken)
    ensures Raw(msgs[1], msgs[3], msgs[6], msgs[8], msgs[11], Spaced(msgs, 13), Spaced(msgs, 49), msgs[47],
                Spaced(msgs, 84), msgs[82], msgs[117]) == Spelled(p)
  {
    var a, b, c, d, n, e := msgs[..4], msgs[4..9], msgs[9..13], msgs[45..49], msgs[81..84], msgs[116..];
    assert msgs[1] == a[1] && msgs[3] == a[3] && msgs[6] == b[2] && msgs[8] == b[4] && msgs[9] == c[0];
    assert msgs[11] == c[2] && msgs[47] == d[2] && msgs[48] == d[3] && msgs[82] == n[1] && msgs[117] == e[1];
  }

  lemma RequiredFound(kinds: seq<Kind>)
    requires Laid(kinds)
    ensures forall k <- REQUIRED :: k in kinds
  {
  }

  // The text addresses that parseMessage takes for one of its field names where that does harm.
  predicate Readable(p: Packet) {
    && KindOf(p.sourceAddress) !in {Version, Sequence, Source, ChainId, Addr}
    && KindOf(p.sender) !in {Version, Sequence, Sender}
  }

  lemma DestinationIsNoNumber(suffix: string)
    requires suffix != "" && suffix[0] == 'u'
    ensures Number(NameOf(Destination), suffix) == None
  {
    assert 'u' !in NameOf(Destination);
    NameIsNoNumber(NameOf(Destination), suffix);
  }

  lemma DestTokenIsNoNumber(suffix: string)
    requires suffix != "" && suffix[0] == 'u'
    ensures Number(NameOf(DestToken), suffix) == None
  {
    assert 'u' !in NameOf(DestToken);
    NameIsNoNumber(NameOf(DestToken), suffix);
  }

  // A field name in place of a number, or another sender, is noticed.
  lemma SpoiledFields(p: Packet, raw: Raw)
    requires raw.version == NameOf(Destination) || raw.version == NameOf(DestToken) ||
             raw.sequence == NameOf(Destination) || raw.sequence == NameOf(DestToken) || raw.sender != p.sender
    ensures PacketOf(raw) != Some(p)
  {
    DestinationIsNoNumber("u8");
    DestinationIsNoNumber("u64");
    DestTokenIsNoNumber("u8");
    DestTokenIsNoNumber("u64");
  }

  lemma ScanReadable(p: Packet, msgs: seq<string>)
    requires LaidOut(p, msgs) && Readable(p)
    ensures Scan(msgs, Kinds(msgs), 0, EMPTY) == Some(Spelled(p))
  {
    var kinds := Kinds(msgs);
    LaidOutKinds(p, msgs);
    PlacesRead(p, msgs);
    assert kinds[8] == KindOf(p.sourceAddress) && kinds[47] == KindOf(p.sender);
    ScanLayout(msgs, kinds);
  }

  lemma ScanUnreadable(p: Packet, msgs: seq<string>)
    requires LaidOut(p, msgs) && !Readable(p)
    ensures var scanned := Scan(msgs, Kinds(msgs), 0, EMPTY); scanned.Some? ==> PacketOf(scanned.value) != Some(p)
  {
    var kinds := Kinds(msgs);
    LaidOutKinds(p, msgs);
    PlacesRead(p, msgs);
    assert kinds[8] == KindOf(p.sourceAddress) && kinds[47] == KindOf(p.sender);
    ScanLayout(msgs, kinds);
    var scanned := Scan(msgs, kinds, 0, EMPTY);
    if scanned.Some? {
      KindOfName(DestToken);
      SpoiledFields(p, scanned.value);
    }
  }

  // With no field missing, the message is what the scan finds.
  lemma MessageIsScan(msgs: seq<string>)
    requires Laid(Kinds(msgs))
    ensures MessageOf(msgs) ==
            match Scan(msgs, Kinds(msgs), 0, EMPTY) { case Some(raw) => Parsed(raw) case None => OutOfRange }
  {
    RequiredFound(Kinds(msgs));
    assert (set k | k in REQUIRED && k !in Kinds(msgs)) == {};
  }

  lemma ReadLayout(p: Packet, msgs: seq<string>)
    requires LaidOut(p, msgs)
    ensures var r := match MessageOf(msgs) { case Parsed(raw) => PacketOf(raw) case _ => None };
            r == Some(p) <==> Readable(p)
  {
    LaidOutKinds(p, msgs);
    MessageIsScan(msgs);
    if Readable(p) {
      ScanReadable(p, msgs);
      ReadSpelled(p);
    } else {
      ScanUnreadable(p, msgs);
    }
  }

  /** Reading undoes printing, for every packet whose two text addresses hold no mark, separator or backslash, exactly
      when neither address is a field name of the kinds above. */
  lemma ReadPrint(p: Packet)
    requires Clean(p.sourceAddress) && Clean(p.sender)
    ensures Read(Print(p)) == Some(p) <==> Readable(p)
  {
    TokensOfPrinted(p);
    LayoutLaidOut(p);
    ReadLayout(p, Layout(p));
  }

  lemma AllPrintsRead(s: string)
    ensures forall p: Packet | Clean(p.sourceAddress) && Clean(p.sender) && Print(p) == s ::
              Read(s) == Some(p) <==> Readable(p)
  {
    forall p: Packet | Clean(p.sourceAddress) && Clean(p.sender) && Print(p) == s
      ensures Read(s) == Some(p) <==> Readable(p)
    {
      ReadPrint(p);
    }
  }

  // parseMessage followed by parseAleoPacket.
  method ReadText(s: string) returns (r: Option<Packet>)
    ensures r == Read(s)
  {
    var parsed := ParseMessage(s);
    match parsed {
      case Parsed(raw) => r := ParseAleoPacket(raw);
      case _ => r := None;
    }
  }

  /** Reading a packet's text, as the client does: a text that is the printed form of a packet with clean addresses gives
      that packet, exactly when neither address is a harmful field name. */
  method ReadPacket(s: string) returns (r: Option<Packet>)
    ensures forall p: Packet | Clean(p.sourceAddress) && Clean(p.sender) && Print(p) == s ::
              r == Some(p) <==> Readable(p)
  {
    r := ReadText(s);
    AllPrintsRead(s);
  }

  /** The node sends a packet's text in quotes: reading it so makes no difference. */
  lemma ReadQuoted(p: Packet)
    requires Clean(p.sourceAddress) && Clean(p.sender)
    ensures Read("\"" + Print(p) + "\"") == Some(p) <==> Readable(p)
  {
    QuotesIgnored(Print(p));
    ReadPrint(p);
  }
}
