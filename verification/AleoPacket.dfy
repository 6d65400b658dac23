/** Reading an Aleo packet (chain/aleo/utils.go): parseMessage finds the fields in the text, parseAleoPacket gives them
    their values. Both build their result step by step; the functions here say what each method must return. */
module AleoPacket {
  import opened AleoTokens
  import opened BigEndian
  import opened Text
  import opened Wrappers

  // ---------- Finding the fields ----------

  // The field names parseMessage looks for.
  datatype Kind =
    | Version | Sequence | Source | Destination | Message | Height
    | ChainId | Addr
    | DestToken | Sender | Receiver | Amount
    | Other

  function NameOf(k: Kind): string
    requires k != Other
  {
    match k
    case Version => "version"
    case Sequence => "sequence"
    case Source => "source"
    case Destination => "destination"
    case Message => "message"
    case Height => "height"
    case ChainId => "chain_id"
    case Addr => "addr"
    case DestToken => "dest_token_address"
    case Sender => "sender_address"
    case Receiver => "receiver_address"
    case Amount => "amount"
  }

  function KindOf(v: string): Kind {
    if v == NameOf(Version) then Version
    else if v == NameOf(Sequence) then Sequence
    else if v == NameOf(Source) then Source
    else if v == NameOf(Destination) then Destination
    else if v == NameOf(Message) then Message
    else if v == NameOf(Height) then Height
    else if v == NameOf(ChainId) then ChainId
    else if v == NameOf(Addr) then Addr
    else if v == NameOf(DestToken) then DestToken
    else if v == NameOf(Sender) then Sender
    else if v == NameOf(Receiver) then Receiver
    else if v == NameOf(Amount) then Amount
    else Other
  }

  // Length and first letter tell the names apart.
  lemma NamesDiffer(j: Kind, k: Kind)
    requires j != Other && k != Other && NameOf(j) == NameOf(k)
    ensures j == k
  {
    assert |NameOf(j)| == |NameOf(k)| && NameOf(j)[0] == NameOf(k)[0];
  }

  lemma KindOfName(k: Kind)
    requires k != Other
    ensures KindOf(NameOf(k)) == k
  {
    forall j | j != Other && NameOf(j) == NameOf(k) ensures j == k { NamesDiffer(j, k); }
    hide NameOf;
  }

  // The names, letter by letter.
  lemma NamesSpelled()
    ensures NameOf(Version) == "version" && NameOf(Sequence) == "sequence" && NameOf(Height) == "height"
    ensures NameOf(Source) == "source" && NameOf(Destination) == "destination" && NameOf(Message) == "message"
    ensures NameOf(ChainId) == "chain_id" && NameOf(Addr) == "addr" && NameOf(Amount) == "amount"
    ensures NameOf(DestToken) == "dest_token_address" && NameOf(Sender) == "sender_address"
    ensures NameOf(Receiver) == "receiver_address"
  {
  }

  lemma KindIffName(v: string, k: Kind)
    requires k != Other
    ensures KindOf(v) == k <==> v == NameOf(k)
  {
    KindOfName(k);
  }

  /** Each of the twelve names is the field it spells, and no other text is. */
  lemma KindsSpelled(v: string)
    ensures KindOf(v) == Version <==> v == "version"
    ensures KindOf(v) == Sequence <==> v == "sequence"
    ensures KindOf(v) == Source <==> v == "source"
    ensures KindOf(v) == Destination <==> v == "destination"
    ensures KindOf(v) == Message <==> v == "message"
    ensures KindOf(v) == Height <==> v == "height"
    ensures KindOf(v) == ChainId <==> v == "chain_id"
    ensures KindOf(v) == Addr <==> v == "addr"
    ensures KindOf(v) == DestToken <==> v == "dest_token_address"
    ensures KindOf(v) == Sender <==> v == "sender_address"
    ensures KindOf(v) == Receiver <==> v == "receiver_address"
    ensures KindOf(v) == Amount <==> v == "amount"
  {
    NamesSpelled();
    forall k: Kind | k != Other ensures KindOf(v) == k <==> v == NameOf(k) { KindIffName(v, k); }
    hide KindOf, NameOf;
    assert forall k: Kind | k != Other :: KindOf(v) == k <==> v == NameOf(k);
  }

  function Kinds(msgs: seq<string>): (kinds: seq<Kind>)
    ensures |kinds| == |msgs|
    ensures forall i | 0 <= i < |msgs| :: kinds[i] == KindOf(msgs[i])
  {
    seq(|msgs|, i requires 0 <= i < |msgs| => KindOf(msgs[i]))
  }

  // aleoPacket: every field still as text.
  datatype Raw = Raw(
    version: string, sequence: string, sourceChain: string, sourceAddress: string, destChain: string,
    destAddress: string, token: string, sender: string, receiver: string, amount: string, height: string)

  const EMPTY: Raw := Raw("", "", "", "", "", "", "", "", "", "", "")

  // An index or slice outside its bounds panics in the code, which recovers and returns an error.
  datatype Parsed = Parsed(raw: Raw) | OutOfRange | Missing(fields: set<Kind>)

  const REQUIRED: set<Kind> := {Version, Sequence, Source, Destination, Message, Height}

  const SOURCE_WINDOW: nat := 4
  const DESTINATION_WINDOW: nat := 35
  const MESSAGE_WINDOW: nat := 70
  const ADDRESS_TOKENS: nat := 32

  datatype Place = AtSource | AtDestination | AtMessage

  // The token at j, inside the window that ends at end. An element is read from the window, whose length bounds it; a
  // slice of the window may run past its length, up to the end of all tokens, because a Go slice is bounded by
  // capacity.
  function Assign(msgs: seq<string>, kinds: seq<Kind>, place: Place, j: nat, end: nat, raw: Raw): Option<Raw>
    requires |kinds| == |msgs| && j < end <= |msgs|
  {
    var next := j + 1 < end;
    var slice := j + 1 + ADDRESS_TOKENS <= |msgs|;
    match (place, kinds[j])
    case (AtSource, ChainId) => if next then Some(raw.(sourceChain := msgs[j + 1])) else None
    case (AtSource, Addr) => if next then Some(raw.(sourceAddress := msgs[j + 1])) else None
    case (AtDestination, ChainId) => if next then Some(raw.(destChain := msgs[j + 1])) else None
    case (AtDestination, Addr) => if slice then Some(raw.(destAddress := Spaced(msgs, j + 1))) else None
    case (AtMessage, DestToken) => if slice then Some(raw.(token := Spaced(msgs, j + 1))) else None
    case (AtMessage, Sender) => if next then Some(raw.(sender := msgs[j + 1])) else None
    case (AtMessage, Receiver) => if slice then Some(raw.(receiver := Spaced(msgs, j + 1))) else None
    case (AtMessage, Amount) => if next then Some(raw.(amount := msgs[j + 1])) else None
    case _ => Some(raw)
  }

  function Spaced(msgs: seq<string>, from: nat): string
    requires from + ADDRESS_TOKENS <= |msgs|
  {
    Join(msgs[from..from + ADDRESS_TOKENS], " ")
  }

  // The tokens from j to the end of the window, in order.
  function Window(msgs: seq<string>, kinds: seq<Kind>, place: Place, j: nat, end: nat, raw: Raw): Option<Raw>
    requires |kinds| == |msgs| && j <= end <= |msgs|
    decreases end - j
  {
    if j == end then Some(raw)
    else match Assign(msgs, kinds, place, j, end, raw)
         case None => None
         case Some(next) => Window(msgs, kinds, place, j + 1, end, next)
  }

  function Opened(msgs: seq<string>, kinds: seq<Kind>, place: Place, from: nat, length: nat, raw: Raw): Option<Raw>
    requires |kinds| == |msgs|
  {
    if from + length <= |msgs| then Window(msgs, kinds, place, from, from + length, raw) else None
  }

  function Visit(msgs: seq<string>, kinds: seq<Kind>, m: nat, raw: Raw): Option<Raw>
    requires |kinds| == |msgs| && m < |msgs|
  {
    var next := m + 1 < |msgs|;
    match kinds[m]
    case Version => if next then Some(raw.(version := msgs[m + 1])) else None
    case Sequence => if next then Some(raw.(sequence := msgs[m + 1])) else None
    case Source => Opened(msgs, kinds, AtSource, m + 1, SOURCE_WINDOW, raw)
    case Destination => Opened(msgs, kinds, AtDestination, m + 1, DESTINATION_WINDOW, raw)
    case Message => Opened(msgs, kinds, AtMessage, m + 1, MESSAGE_WINDOW, raw)
    case Height => if next then Some(raw.(height := msgs[m + 1])) else None
    case _ => Some(raw)
  }

  // Every token from m on, in order.
  function Scan(msgs: seq<string>, kinds: seq<Kind>, m: nat, raw: Raw): Option<Raw>
    requires |kinds| == |msgs| && m <= |msgs|
    decreases |msgs| - m
  {
    if m == |msgs| then Some(raw)
    else match Visit(msgs, kinds, m, raw)
         case None => None
         case Some(next) => Scan(msgs, kinds, m + 1, next)
  }

  function MessageOf(msgs: seq<string>): Parsed {
    var kinds := Kinds(msgs);
    var missing := set k | k in REQUIRED && k !in kinds;
    match Scan(msgs, kinds, 0, EMPTY)
    case None => OutOfRange
    case Some(raw) => if missing == {} then Parsed(raw) else Missing(missing)
  }

  method ScanWindow(msgs: seq<string>, kinds: seq<Kind>, place: Place, from: nat, length: nat, raw: Raw)
    returns (r: Option<Raw>)
    requires |kinds| == |msgs|
    ensures r == Opened(msgs, kinds, place, from, length, raw)
  {
    if |msgs| < from + length { return None; }
    var end := from + length;
    var pkt := raw;
    var j := from;
    while j < end
      invariant from <= j <= end
      invariant Window(msgs, kinds, place, from, end, raw) == Window(msgs, kinds, place, j, end, pkt)
    {
      var step := Assign(msgs, kinds, place, j, end, pkt);
      if step.None? { return None; }
      pkt := step.value;
      j := j + 1;
    }
    r := Some(pkt);
  }

  // One round of the loop over all tokens.
  method VisitToken(msgs: seq<string>, kinds: seq<Kind>, m: nat, raw: Raw) returns (r: Option<Raw>)
    requires |kinds| == |msgs| && m < |msgs|
    ensures r == Visit(msgs, kinds, m, raw)
  {
    match kinds[m] {
      case Version =>
        if m + 1 >= |msgs| { return None; }
        r := Some(raw.(version := msgs[m + 1]));
      case Sequence =>
        if m + 1 >= |msgs| { return None; }
        r := Some(raw.(sequence := msgs[m + 1]));
      case Height =>
        if m + 1 >= |msgs| { return None; }
        r := Some(raw.(height := msgs[m + 1]));
      case Source => r := ScanWindow(msgs, kinds, AtSource, m + 1, SOURCE_WINDOW, raw);
      case Destination => r := ScanWindow(msgs, kinds, AtDestination, m + 1, DESTINATION_WINDOW, raw);
      case Message => r := ScanWindow(msgs, kinds, AtMessage, m + 1, MESSAGE_WINDOW, raw);
      case _ => r := Some(raw);
    }
  }

  method ScanTokens(messages: seq<string>, kinds: seq<Kind>) returns (r: Option<Raw>, missing: set<Kind>)
    requires |kinds| == |messages|
    ensures r == Scan(messages, kinds, 0, EMPTY)
    ensures r.Some? ==> missing == set k | k in REQUIRED && k !in kinds
  {
    var requiredFields: map<Kind, bool> := map k | k in REQUIRED :: false;
    var pkt := EMPTY;
    var m := 0;
    while m < |messages|
      invariant 0 <= m <= |messages|
      invariant Scan(messages, kinds, 0, EMPTY) == Scan(messages, kinds, m, pkt)
      invariant requiredFields.Keys == REQUIRED
      invariant forall k <- REQUIRED :: requiredFields[k] <==> k in kinds[..m]
    {
      var step := VisitToken(messages, kinds, m, pkt);
      if step.None? { return None, {}; }
      pkt := step.value;
      if kinds[m] in REQUIRED { requiredFields := requiredFields[kinds[m] := true]; }
      assert kinds[..m + 1] == kinds[..m] + [kinds[m]];
      m := m + 1;
    }
    assert kinds[..m] == kinds;
    missing := set k | k in requiredFields && !requiredFields[k];
    r := Some(pkt);
  }

  method ParseMessage(s: string) returns (r: Parsed)
    ensures r == MessageOf(Tokens(s))
  {
    var messages := Tokenize(s);
    var scanned, missing := ScanTokens(messages, Kinds(messages));
    if scanned.None? { return OutOfRange; }
    r := if missing == {} then Parsed(scanned.value) else Missing(missing);
  }

  // ---------- Reading the values ----------

  // common.BytesToAddress: the last 20 bytes, padded on the left.
  function BytesToAddress(b: Bytes): Address {
    if |b| >= 20 then b[|b| - 20..] else seq(20 - |b|, _ => 0) + b
  }

  lemma Distribute(x: nat, weight: nat, rest: nat, digit: nat)
    ensures (x * weight + rest) * 256 + digit == x * (256 * weight) + (rest * 256 + digit)
  {
    ShiftDigit(x, weight);
  }

  lemma LastDigit(b: Bytes, front: Bytes, digit: Byte)
    requires b == front + [digit]
    ensures Decode(b) == Decode(front) * 256 + digit && Pow(|b|) == 256 * Pow(|front|)
  {
    assert b[..|b| - 1] == front;
  }

  lemma {:induction false} DecodeAppend(a: Bytes, b: Bytes)
    ensures Decode(a + b) == Decode(a) * Pow(|b|) + Decode(b)
  {
    if |b| == 0 {
      assert a + b == a;
    } else {
      hide Decode, Pow;
      var front, digit := b[..|b| - 1], b[|b| - 1];
      DecodeAppend(a, front);
      assert a + b == (a + front) + [digit];
      LastDigit(a + b, a + front, digit);
      LastDigit(b, front, digit);
      Distribute(Decode(a), Pow(|front|), Decode(front), digit);
    }
  }

  lemma {:induction false} DecodeZeros(n: nat)
    ensures Decode(seq(n, _ => 0)) == 0
  {
    if n > 0 {
      DecodeZeros(n - 1);
      assert seq(n, _ => 0)[..n - 1] == seq(n - 1, _ => 0);
    }
  }

  /** As numbers: the address of a byte string of any length is what its low 160 bits are, whatever lies above them. */
  lemma AddressIsLowBits(b: Bytes)
    ensures Decode(b) == Decode(if |b| >= 20 then b[..|b| - 20] else []) * Pow(20) + Decode(BytesToAddress(b))
    ensures Decode(BytesToAddress(b)) < Pow(20)
  {
    hide Decode, Pow;
    var high := if |b| >= 20 then b[..|b| - 20] else [];
    if |b| >= 20 {
      DecodeAppend(high, b[|b| - 20..]);
      assert b == high + b[|b| - 20..];
    } else {
      DecodeAppend(seq(20 - |b|, _ => 0), b);
      DecodeZeros(20 - |b|);
      DecodeZeros(0);
      assert high == seq(0, _ => 0);
    }
  }

  // strconv.ParseUint(s, 0, 8).
  function ParseByte(s: string): Option<Byte> {
    match Base0(s)
    case Some(n) => if n < 256 then Some(n) else None
    case None => None
  }

  function ParseBytes(parts: seq<string>): Option<Bytes> {
    if |parts| == 0 then Some([])
    else match (ParseByte(parts[0]), ParseBytes(parts[1..]))
         case (Some(b), Some(rest)) => Some([b] + rest)
         case _ => None
  }

  // The first bytes of a 32-byte Aleo address, which an Ethereum address does not use.
  const PADDING: nat := 12

  function AddressParts(text: string): seq<string> { Split(TrimSpaces(RemoveAll(text, "u8")), {' '}) }

  // What parseAleoEthAddrToHexString must return: the last 20 of the bytes listed after the padding.
  function EthAddressOf(text: string): Option<Address> {
    var parts := AddressParts(text);
    if Count(text, "u8") != ADDRESS_TOKENS then None
    else if |parts| <= PADDING then Some(BytesToAddress([]))
    else match ParseBytes(parts[PADDING..])
         case Some(b) => Some(BytesToAddress(b))
         case None => None
  }

  function Prepend(b: Bytes, rest: Option<Bytes>): Option<Bytes> {
    match rest
    case Some(r) => Some(b + r)
    case None => None
  }

  lemma PrependNothing(rest: Option<Bytes>)
    ensures Prepend([], rest) == rest
  {
    if rest.Some? { assert [] + rest.value == rest.value; }
  }

  lemma PrependOne(b: Bytes, parts: seq<string>)
    requires |parts| > 0
    ensures Prepend(b, ParseBytes(parts)) ==
            match ParseByte(parts[0])
            case Some(bt) => Prepend(b + [bt], ParseBytes(parts[1..]))
            case None => None
  {
    var rest := ParseBytes(parts[1..]);
    if ParseByte(parts[0]).Some? && rest.Some? {
      var bt := ParseByte(parts[0]).value;
      assert b + ([bt] + rest.value) == (b + [bt]) + rest.value;
    }
  }

  method ParseAleoEthAddr(text: string) returns (r: Option<Address>)
    ensures r == EthAddressOf(text)
  {
    if Count(text, "u8") != ADDRESS_TOKENS { return None; }
    var parts := AddressParts(text);
    if |parts| <= PADDING { return Some(BytesToAddress([])); }
    var bytes: Bytes := [];
    var i := PADDING;
    PrependNothing(ParseBytes(parts[PADDING..]));
    while i < |parts|
      invariant PADDING <= i <= |parts|
      invariant ParseBytes(parts[PADDING..]) == Prepend(bytes, ParseBytes(parts[i..]))
    {
      PrependOne(bytes, parts[i..]);
      assert parts[i..][1..] == parts[i + 1..];
      var bt := ParseByte(parts[i]);
      if bt.None? { return None; }
      bytes := bytes + [bt.value];
      i := i + 1;
    }
    assert parts[i..] == [] && bytes + [] == bytes;
    r := Some(BytesToAddress(bytes));
  }

  // chain.Packet. Ethereum addresses are their 20 bytes.
  datatype Packet = Packet(
    version: Byte, sequence: U64, sourceChain: int, sourceAddress: string, destChain: int, destAddress: Address,
    token: Address, sender: string, receiver: Address, amount: int, height: U64)

  function Abs(n: int): nat { if n < 0 then -n else n }

  // A decimal number with its type suffix removed.
  function Number(text: string, suffix: string): Option<int>
    requires suffix != ""
  {
    Signed(RemoveFirst(text, suffix), Base10)
  }

  // The amount may be written in any base.
  function AmountOf(text: string): Option<int> { Signed(RemoveFirst(text, "u128"), Base0) }

  // uint8(x.Uint64()) and x.Uint64(): the low bits of the magnitude.
  function Low8(x: int): Byte { Abs(x) % 256 }

  function Low64(x: int): U64 { Abs(x) % U64_LIMIT }

  // The packet, when every field was read.
  function Assemble(
    raw: Raw, version: Option<int>, sequence: Option<int>, sourceChain: Option<int>, destChain: Option<int>,
    dest: Option<Address>, token: Option<Address>, receiver: Option<Address>, amount: Option<int>, height: Option<int>)
    : Option<Packet>
  {
    if version.None? || sequence.None? || sourceChain.None? || destChain.None? || dest.None? || token.None? ||
       receiver.None? || amount.None? || height.None? then None
    else Some(Packet(Low8(version.value), Low64(sequence.value), sourceChain.value, raw.sourceAddress,
                     destChain.value, dest.value, token.value, raw.sender, receiver.value, amount.value,
                     Low64(height.value)))
  }

  function PacketOf(raw: Raw): Option<Packet> {
    Assemble(raw, Number(raw.version, "u8"), Number(raw.sequence, "u64"), Number(raw.sourceChain, "u128"),
             Number(raw.destChain, "u128"), EthAddressOf(raw.destAddress), EthAddressOf(raw.token),
             EthAddressOf(raw.receiver), AmountOf(raw.amount), Number(raw.height, "u64"))
  }

  method ParseAleoPacket(raw: Raw) returns (r: Option<Packet>)
    ensures r == PacketOf(raw)
  {
    var version := Number(raw.version, "u8");
    if version.None? { return None; }
    var sequence := Number(raw.sequence, "u64");
    if sequence.None? { return None; }
    var sourceChain := Number(raw.sourceChain, "u128");
    if sourceChain.None? { return None; }
    var destChain := Number(raw.destChain, "u128");
    if destChain.None? { return None; }
    var dest := ParseAleoEthAddr(raw.destAddress);
    if dest.None? { return None; }
    var token := ParseAleoEthAddr(raw.token);
    if token.None? { return None; }
    var receiver := ParseAleoEthAddr(raw.receiver);
    if receiver.None? { return None; }
    var amount := AmountOf(raw.amount);
    if amount.None? { return None; }
    var height := Number(raw.height, "u64");
    if height.None? { return None; }
    r := Some(Packet(Low8(version.value), Low64(sequence.value), sourceChain.value, raw.sourceAddress,
                     destChain.value, dest.value, token.value, raw.sender, receiver.value, amount.value,
                     Low64(height.value)));
  }

  // parseMessage followed by parseAleoPacket (chain/aleo/client.go, getPktWithSeq).
  function Read(s: string): Option<Packet> {
    match MessageOf(Tokens(s))
    case Parsed(raw) => PacketOf(raw)
    case _ => None
  }
}
