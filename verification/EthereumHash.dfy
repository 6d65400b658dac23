/** The bytes the signing service hashes for an Ethereum destination (signingService/chain/ethereum/hash.go), against
    the packed encoding that the contract's own tooling hashes (solidity/scripts/deploy/withdrawFunds.js,
    inPacketHash) and that the contract recomputes (PacketLibrary.sol, hash).

    Keccak-256 is a parameter. Text addresses are the bytes of their text; Ethereum addresses are their 20 bytes. */
module EthereumHash {
  import opened BigEndian
  import opened Wrappers

  datatype Packet = Packet(
    version: Byte, sequence: U64, sourceChain: nat, sourceAddress: Bytes, destChain: nat, destAddress: Address,
    sender: Bytes, token: Address, amount: nat, receiver: Address, height: U64)

  // The unbounded numbers fit in 256 bits.
  predicate FitsWords(p: Packet) {
    p.sourceChain < Pow(32) && p.destChain < Pow(32) && p.amount < Pow(32)
  }

  // ---------- Non-standard packed mode of the Solidity ABI specification ----------

  datatype Value = Uint256(v: nat) | Uint8(v8: Byte) | Text(text: Bytes) | Addr(a: Address) | Bytes32(b: Bytes)

  function Pack(vs: seq<Value>): Bytes {
    if |vs| == 0 then []
    else (match vs[0]
          case Uint256(v) => Encode(v, 32)
          case Uint8(v) => [v]
          case Text(t) => t
          case Addr(a) => a
          case Bytes32(b) => b) + Pack(vs[1..])
  }

  // The arguments of inPacketHash, in its order.
  function InPacket(p: Packet): seq<Value> {
    [Uint256(p.version), Uint256(p.sequence), Uint256(p.sourceChain), Text(p.sourceAddress),
     Uint256(p.destChain), Addr(p.destAddress), Text(p.sender), Addr(p.token), Uint256(p.amount), Addr(p.receiver),
     Uint256(p.height)]
  }

  // "\x19Ethereum Signed Message:\n32", the prefix of version 0x45 of ERC-191 for a 32-byte message.
  const PREFIX: Bytes := [0x19, 69, 116, 104, 101, 114, 101, 117, 109, 32, 83, 105, 103, 110, 101, 100, 32, 77, 101, 115,
                          115, 97, 103, 101, 58, 10, 51, 50]

  predicate Narrow(text: string) { forall i | 0 <= i < |text| :: text[i] as int < 256 }

  // The bytes of a text of one-byte characters.
  function Codes(text: string): (b: Bytes)
    requires Narrow(text)
    ensures |b| == |text| && forall i | 0 <= i < |text| :: b[i] == text[i] as int
  {
    seq(|text|, i requires 0 <= i < |text| => text[i] as int)
  }

  lemma PrefixCodes()
    ensures Narrow("Ethereum Signed Message:\n32")
    ensures PREFIX == [0x19] + Codes("Ethereum Signed Message:\n32")
  {
    var text := "Ethereum Signed Message:\n32";
    assert |text| == 27 && |PREFIX| == 28;
    assert forall i | 0 <= i < 27 :: PREFIX[i + 1] == text[i] as int;
  }

  // ---------- The Go side ----------

  // big.Int.FillBytes on a 32-byte buffer; it panics on a number that does not fit.
  method FillBytes(v: nat) returns (word: Option<array<Byte>>)
    ensures word.Some? <==> v < Pow(32)
    ensures word.Some? ==> fresh(word.value) && word.value[..] == Encode(v, 32)
  {
    if v >= Pow(32) { return None; }
    var buf := new Byte[32](_ => 0);
    WriteBigEndian(buf, 0, 32, v);
    assert buf[..] == buf[0..32];
    word := Some(buf);
  }

  lemma {:induction false} EncodeZeroPads(v: nat, n: nat, m: nat)
    requires v < Pow(n)
    ensures Encode(v, m + n) == Encode(0, m) + Encode(v, n)
    decreases n
  {
    if n > 0 {
      EncodeZeroPads(v / 256, n - 1, m);
    } else {
      assert Encode(0, m) + [] == Encode(0, m);
    }
  }

  // A uint64 written into the last 8 bytes of a zeroed 32-byte buffer.
  method PutWord(v: U64) returns (word: array<Byte>)
    ensures fresh(word) && word[..] == Encode(v, 32)
  {
    word := new Byte[32](_ => 0);
    ghost var zeros := word[..24];
    WriteBigEndian(word, 24, 32, v);
    Pow8();
    EncodeZeroPads(v, 8, 24);
    EncodeZeroPads(0, 0, 24);
    assert zeros == Encode(0, 24) by { ZerosEncodeZero(zeros); }
    assert word[..] == word[..24] + word[24..32];
  }

  lemma {:induction false} ZerosEncodeZero(b: Bytes)
    requires forall i | 0 <= i < |b| :: b[i] == 0
    ensures b == Encode(0, |b|)
  {
    if |b| > 0 { ZerosEncodeZero(b[..|b| - 1]); }
  }

  /** The digest the attestor signs is the one a wallet signs for the message that hashes the packed packet hash and
      vote: of byte 0x19, the text below and the 32-byte message. */
  method Hash(p: Packet, isWhite: bool, keccak: Bytes -> Bytes) returns (digest: Option<Bytes>)
    ensures digest.Some? <==> FitsWords(p)
    ensures Narrow("Ethereum Signed Message:\n32")
    ensures digest.Some? ==>
              var packetHash := keccak(Pack(
                [Uint256(p.version), Uint256(p.sequence), Uint256(p.sourceChain), Text(p.sourceAddress),
                 Uint256(p.destChain), Addr(p.destAddress), Text(p.sender), Addr(p.token), Uint256(p.amount),
                 Addr(p.receiver), Uint256(p.height)]));
              var message := keccak(Pack([Bytes32(packetHash), Uint8(if isWhite then 1 else 0)]));
              digest.value == keccak([0x19] + Codes("Ethereum Signed Message:\n32") + message)
  {
    PrefixCodes();
    var version := PutWord(p.version);
    var sequence := PutWord(p.sequence);
    var height := PutWord(p.height);
    var amount := FillBytes(p.amount);
    if amount.None? { return None; }
    var sourceChain := FillBytes(p.sourceChain);
    if sourceChain.None? { return None; }
    var destChain := FillBytes(p.destChain);
    if destChain.None? { return None; }
    var preimage := version[..] + sequence[..] + sourceChain.value[..] + p.sourceAddress + destChain.value[..] +
      p.destAddress + p.sender + p.token + amount.value[..] + p.receiver + height[..];
    PreimageIsPacked(p);
    assert preimage == Preimage(p);
    var packetHash := keccak(preimage);
    var vote: Bytes := if isWhite then [1] else [0];
    VoteIsPacked(packetHash, vote[0]);
    digest := Some(keccak(PREFIX + keccak(packetHash + vote)));
  }

  function Preimage(p: Packet): Bytes {
    Encode(p.version, 32) + Encode(p.sequence, 32) + Encode(p.sourceChain, 32) + p.sourceAddress +
    Encode(p.destChain, 32) + p.destAddress + p.sender + p.token + Encode(p.amount, 32) + p.receiver +
    Encode(p.height, 32)
  }

  lemma BackIsPacked(p: Packet)
    ensures Pack(InPacket(p)[6..]) == p.sender + p.token + Encode(p.amount, 32) + p.receiver + Encode(p.height, 32)
  {
    var vs := InPacket(p)[6..];
    assert Pack(vs[4..]) == Encode(p.height, 32) by { assert vs[4..][1..] == []; }
    assert Pack(vs[3..]) == p.receiver + Pack(vs[4..]) by { assert vs[3..][1..] == vs[4..]; }
    assert Pack(vs[2..]) == Encode(p.amount, 32) + Pack(vs[3..]) by { assert vs[2..][1..] == vs[3..]; }
    assert Pack(vs[1..]) == p.token + Pack(vs[2..]) by { assert vs[1..][1..] == vs[2..]; }
    assert Pack(vs) == p.sender + Pack(vs[1..]);
  }

  lemma MiddleIsPacked(p: Packet)
    ensures Pack(InPacket(p)[3..]) ==
            p.sourceAddress + Encode(p.destChain, 32) + p.destAddress + Pack(InPacket(p)[6..])
  {
    var vs := InPacket(p)[3..];
    assert Pack(vs[2..]) == p.destAddress + Pack(vs[3..]) by { assert vs[2..][1..] == vs[3..]; }
    assert Pack(vs[1..]) == Encode(p.destChain, 32) + Pack(vs[2..]) by { assert vs[1..][1..] == vs[2..]; }
    assert Pack(vs) == p.sourceAddress + Pack(vs[1..]);
    assert vs[3..] == InPacket(p)[6..];
  }

  lemma FrontIsPacked(p: Packet)
    ensures Pack(InPacket(p)) ==
            Encode(p.version, 32) + Encode(p.sequence, 32) + Encode(p.sourceChain, 32) + Pack(InPacket(p)[3..])
  {
    var vs := InPacket(p);
    assert Pack(vs[2..]) == Encode(p.sourceChain, 32) + Pack(vs[3..]) by { assert vs[2..][1..] == vs[3..]; }
    assert Pack(vs[1..]) == Encode(p.sequence, 32) + Pack(vs[2..]) by { assert vs[1..][1..] == vs[2..]; }
    assert Pack(vs) == Encode(p.version, 32) + Pack(vs[1..]);
  }

  /** The concatenation the Go code hashes is the packed encoding of the packet. */
  lemma PreimageIsPacked(p: Packet)
    ensures Preimage(p) == Pack(InPacket(p)) ==
            Encode(p.version, 32) + Encode(p.sequence, 32) + Encode(p.sourceChain, 32) + p.sourceAddress +
            Encode(p.destChain, 32) + p.destAddress + p.sender + p.token + Encode(p.amount, 32) + p.receiver +
            Encode(p.height, 32)
  {
    hide Pack, Encode;
    FrontIsPacked(p);
    MiddleIsPacked(p);
    BackIsPacked(p);
  }

  lemma VoteIsPacked(packetHash: Bytes, vote: Byte)
    ensures Pack([Bytes32(packetHash), Uint8(vote)]) == packetHash + [vote]
  {
    var vs := [Bytes32(packetHash), Uint8(vote)];
    assert vs[1..] == [Uint8(vote)] && vs[1..][1..] == [];
    assert Pack(vs[1..]) == [vote] + [];
  }

  // ---------- What equal preimages say about packets ----------

  lemma SplitEqual(a: Bytes, b: Bytes, c: Bytes, d: Bytes)
    requires a + b == c + d && |a| == |c|
    ensures a == c && b == d
  {
    assert (a + b)[..|a|] == a && (c + d)[..|c|] == c;
    assert (a + b)[|a|..] == b && (c + d)[|c|..] == d;
  }

  // The preimage read from its front.
  function Tail3(p: Packet): Bytes {
    Encode(p.destChain, 32) + (p.destAddress + (p.sender + Tail7(p)))
  }

  function Tail7(p: Packet): Bytes {
    p.token + (Encode(p.amount, 32) + (p.receiver + Encode(p.height, 32)))
  }

  lemma PreimageFolds(p: Packet)
    ensures Preimage(p) ==
            Encode(p.version, 32) + (Encode(p.sequence, 32) + (Encode(p.sourceChain, 32) + (p.sourceAddress + Tail3(p))))
    ensures |Tail7(p)| == 104 && |Tail3(p)| == 156 + |p.sender|
  {
  }

  lemma {:induction false} PowGrows(m: nat, n: nat)
    requires m <= n
    ensures Pow(m) <= Pow(n)
    decreases n - m
  {
    if m < n { PowGrows(m + 1, n); }
  }

  lemma U64Fits(v: U64)
    ensures v < Pow(32)
  {
    Pow8();
    PowGrows(8, 32);
  }

  lemma EqualWord(v: nat, w: nat)
    requires v < Pow(32) && w < Pow(32) && Encode(v, 32) == Encode(w, 32)
    ensures v == w
  {
    DecodeEncode(v, 32);
    DecodeEncode(w, 32);
  }

  lemma EqualWords(p: Packet, q: Packet)
    requires FitsWords(p) && FitsWords(q)
    requires Encode(p.version, 32) == Encode(q.version, 32) && Encode(p.sequence, 32) == Encode(q.sequence, 32)
    requires Encode(p.sourceChain, 32) == Encode(q.sourceChain, 32) && Encode(p.destChain, 32) == Encode(q.destChain, 32)
    requires Encode(p.amount, 32) == Encode(q.amount, 32) && Encode(p.height, 32) == Encode(q.height, 32)
    ensures p.version == q.version && p.sequence == q.sequence && p.sourceChain == q.sourceChain
    ensures p.destChain == q.destChain && p.amount == q.amount && p.height == q.height
  {
    U64Fits(p.sequence);
    U64Fits(q.sequence);
    U64Fits(p.height);
    U64Fits(q.height);
    U64Fits(p.version);
    U64Fits(q.version);
    EqualWord(p.version, q.version);
    EqualWord(p.sequence, q.sequence);
    EqualWord(p.sourceChain, q.sourceChain);
    EqualWord(p.destChain, q.destChain);
    EqualWord(p.amount, q.amount);
    EqualWord(p.height, q.height);
  }

  lemma EqualTails(p: Packet, q: Packet)
    requires Tail3(p) == Tail3(q)
    ensures Encode(p.destChain, 32) == Encode(q.destChain, 32) && p.destAddress == q.destAddress
    ensures p.sender == q.sender && p.token == q.token && p.receiver == q.receiver
    ensures Encode(p.amount, 32) == Encode(q.amount, 32) && Encode(p.height, 32) == Encode(q.height, 32)
  {
    SplitEqual(Encode(p.destChain, 32), p.destAddress + (p.sender + Tail7(p)),
               Encode(q.destChain, 32), q.destAddress + (q.sender + Tail7(q)));
    SplitEqual(p.destAddress, p.sender + Tail7(p), q.destAddress, q.sender + Tail7(q));
    SplitEqual(p.sender, Tail7(p), q.sender, Tail7(q));
    SplitEqual(p.token, Encode(p.amount, 32) + (p.receiver + Encode(p.height, 32)),
               q.token, Encode(q.amount, 32) + (q.receiver + Encode(q.height, 32)));
    SplitEqual(Encode(p.amount, 32), p.receiver + Encode(p.height, 32), Encode(q.amount, 32), q.receiver + Encode(q.height, 32));
    SplitEqual(p.receiver, Encode(p.height, 32), q.receiver, Encode(q.height, 32));
  }

  /** Any packets with the same preimage, chain ids of 256 bits included, are the same packet exactly when their source
      addresses are equally long. */
  lemma EqualPreimages(p: Packet, q: Packet)
    requires FitsWords(p) && FitsWords(q)
    requires Preimage(p) == Preimage(q)
    ensures p == q <==> |p.sourceAddress| == |q.sourceAddress|
  {
    PreimageFolds(p);
    PreimageFolds(q);
    if |p.sourceAddress| == |q.sourceAddress| {
      SplitEqual(Encode(p.version, 32), Encode(p.sequence, 32) + (Encode(p.sourceChain, 32) + (p.sourceAddress + Tail3(p))),
                 Encode(q.version, 32), Encode(q.sequence, 32) + (Encode(q.sourceChain, 32) + (q.sourceAddress + Tail3(q))));
      SplitEqual(Encode(p.sequence, 32), Encode(p.sourceChain, 32) + (p.sourceAddress + Tail3(p)),
                 Encode(q.sequence, 32), Encode(q.sourceChain, 32) + (q.sourceAddress + Tail3(q)));
      SplitEqual(Encode(p.sourceChain, 32), p.sourceAddress + Tail3(p), Encode(q.sourceChain, 32), q.sourceAddress + Tail3(q));
      SplitEqual(p.sourceAddress, Tail3(p), q.sourceAddress, Tail3(q));
      EqualTails(p, q);
      EqualWords(p, q);
    }
  }

  lemma LeadingZero(v: nat)
    requires v < Pow(16)
    ensures Encode(v, 32)[0] == 0
  {
    EncodeZeroPads(v, 16, 16);
    ZerosEncodeZero(seq(16, _ => 0));
  }

  lemma Behind(front: Bytes, middle: Bytes, back: Bytes)
    requires |back| > 0
    ensures var all := front + (middle + back);
            && (forall i | 0 <= i < |middle| :: all[|front| + i] == middle[i])
            && all[|front| + |middle|] == back[0]
  {
  }

  function Front(p: Packet): (b: Bytes)
    ensures |b| == 96
  {
    Encode(p.version, 32) + Encode(p.sequence, 32) + Encode(p.sourceChain, 32)
  }

  lemma SourceBehindFront(p: Packet)
    ensures Preimage(p) == Front(p) + (p.sourceAddress + Tail3(p))
  {
    PreimageFolds(p);
    var x, y, z, rest := Encode(p.version, 32), Encode(p.sequence, 32), Encode(p.sourceChain, 32), p.sourceAddress + Tail3(p);
    assert x + (y + (z + rest)) == x + y + z + rest;
  }

  // The source address within the preimage, and the byte after it.
  lemma SourceInPreimage(p: Packet)
    requires p.destChain < Pow(16)
    ensures |Preimage(p)| > 96 + |p.sourceAddress|
    ensures forall i | 0 <= i < |p.sourceAddress| :: Preimage(p)[96 + i] == p.sourceAddress[i]
    ensures Preimage(p)[96 + |p.sourceAddress|] == 0
  {
    LeadingZero(p.destChain);
    SourceBehindFront(p);
    Behind(Front(p), p.sourceAddress, Tail3(p));
    assert |Tail3(p)| > 0 && Tail3(p)[0] == Encode(p.destChain, 32)[0];
  }

  // A source address cannot be a proper beginning of the other: its end would be a zero byte of the longer one.
  lemma NotShorter(p: Packet, q: Packet)
    requires Preimage(p) == Preimage(q) && p.destChain < Pow(16) && q.destChain < Pow(16)
    requires 0 !in q.sourceAddress
    ensures |p.sourceAddress| >= |q.sourceAddress|
  {
    forall i | 0 <= i < |q.sourceAddress| ensures q.sourceAddress[i] != 0 { assert q.sourceAddress[i] in q.sourceAddress; }
    SourceInPreimage(p);
    SourceInPreimage(q);
  }

  /** Different packets of the bridge have different preimages, whatever the lengths of their texts: where destination
      chain ids fit in 128 bits and source addresses hold no zero byte, equal preimages mean equal packets. */
  lemma PreimagesDetermine(p: Packet, q: Packet)
    requires FitsWords(p) && FitsWords(q) && Preimage(p) == Preimage(q)
    requires p.destChain < Pow(16) && q.destChain < Pow(16)
    requires 0 !in p.sourceAddress && 0 !in q.sourceAddress
    ensures p == q
  {
    NotShorter(p, q);
    NotShorter(q, p);
    EqualPreimages(p, q);
  }

  function Repeated(n: nat): (b: Bytes)
    ensures |b| == n
  {
    seq(n, _ => 0x61)
  }

  // One character of the source address reads as well as the sender's, when all that lies between repeats it.
  lemma ShiftedByte(tail: Bytes)
    ensures Repeated(1) + (Repeated(32) + (Repeated(20) + ([] + tail))) ==
            [] + (Repeated(32) + (Repeated(20) + (Repeated(1) + tail)))
  {
    assert Repeated(1) + Repeated(52) == Repeated(53) == Repeated(52) + Repeated(1);
    assert Repeated(32) + Repeated(20) == Repeated(52);
    assert Repeated(1) + (Repeated(32) + (Repeated(20) + ([] + tail))) ==
           (Repeated(1) + (Repeated(32) + Repeated(20))) + tail;
    assert [] + (Repeated(32) + (Repeated(20) + (Repeated(1) + tail))) ==
           ((Repeated(32) + Repeated(20)) + Repeated(1)) + tail;
  }

  /** The 128 bits matter: with chain ids of 256 bits, whatever the other fields, two different packets can share a
      preimage. No packet of the bridge has such an id. */
  lemma LengthsMatter(p: Packet) returns (q1: Packet, q2: Packet)
    requires FitsWords(p)
    ensures FitsWords(q1) && FitsWords(q2) && q1 != q2 && Preimage(q1) == Preimage(q2)
    ensures 0 !in q1.sourceAddress && 0 !in q2.sourceAddress
    ensures q1.version == p.version && q1.sequence == p.sequence && q1.token == p.token
    ensures q1.amount == p.amount && q1.receiver == p.receiver && q1.height == p.height
  {
    EncodeDecode(Repeated(32));
    q1 := p.(sourceAddress := Repeated(1), destChain := Decode(Repeated(32)), destAddress := Repeated(20), sender := []);
    q2 := q1.(sourceAddress := [], sender := Repeated(1));
    PreimageFolds(q1);
    PreimageFolds(q2);
    assert Tail7(q1) == Tail7(q2);
    ShiftedByte(Tail7(q1));
  }
}
