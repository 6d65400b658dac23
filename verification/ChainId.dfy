/** The network chain id (aleo/utils/chainId.ts): a network name and a chain number in one integer, written in
    hexadecimal as the name's character codes, the code of ':', and the number. */
module ChainId {
  import opened Wrappers

  // Hexadecimal digits as their values; text in base 16 is a sequence of them.
  type Digit = d: int | 0 <= d < 16
  type Hex = seq<Digit>

  // toString(16): no leading zeros, and "0" for zero.
  function ToHex(n: nat): (h: Hex)
    ensures |h| > 0
    ensures h[0] == 0 ==> n == 0 && h == [0]
  {
    if n < 16 then [n] else ToHex(n / 16) + [n % 16]
  }

  // BigInt("0x" + h) and parseInt(h, 16).
  function FromHex(h: Hex): nat {
    if |h| == 0 then 0 else FromHex(h[..|h| - 1]) * 16 + h[|h| - 1]
  }

  lemma {:induction false} FromToHex(n: nat)
    ensures FromHex(ToHex(n)) == n
  {
    if n >= 16 {
      FromToHex(n / 16);
      assert ToHex(n)[..|ToHex(n)| - 1] == ToHex(n / 16);
    }
  }

  lemma {:induction false} ToFromHex(h: Hex)
    requires |h| > 0 && h[0] != 0
    ensures ToHex(FromHex(h)) == h && FromHex(h) > 0
  {
    if |h| > 1 {
      var front := h[..|h| - 1];
      ToFromHex(front);
      var f, d := FromHex(front), h[|h| - 1];
      assert (f * 16 + d) / 16 == f && (f * 16 + d) % 16 == d;
      assert h == front + [d];
    }
  }

  // A character code with a two-digit hexadecimal form.
  predicate TwoDigit(c: char) { 0x10 <= c as int < 0x100 }

  const SEPARATOR: Hex := [3, 10]  // the code of ':', 0x3a

  // The character codes of the name, joined.
  function NameHex(name: string): Hex {
    if |name| == 0 then [] else ToHex(name[0] as int) + NameHex(name[1..])
  }

  function EncodeNetworkChainId(name: string, chainId: nat): nat {
    FromHex(NameHex(name) + SEPARATOR + ToHex(chainId))
  }

  // match(/.{2}/g): the whole pairs of digits.
  function Pairs(h: Hex): (ps: seq<Hex>)
    ensures |ps| == |h| / 2
  {
    if |h| < 2 then [] else [h[..2]] + Pairs(h[2..])
  }

  lemma {:induction false} PairAt(h: Hex, i: nat)
    requires 2 * i + 2 <= |h|
    ensures Pairs(h)[i] == h[2 * i..2 * i + 2]
  {
    if i > 0 {
      PairAt(h[2..], i - 1);
      var at := 2 * (i - 1);
      assert h[2..][at..at + 2] == [h[2..][at], h[2..][at + 1]];
      assert h[at + 2..at + 4] == [h[at + 2], h[at + 3]];
    }
  }

  // indexOf.
  function IndexOf(ps: seq<Hex>, p: Hex): (i: int)
    ensures -1 <= i < |ps|
    ensures i >= 0 ==> ps[i] == p && forall j | 0 <= j < i :: ps[j] != p
    ensures i < 0 ==> forall j | 0 <= j < |ps| :: ps[j] != p
  {
    if |ps| == 0 then -1
    else if ps[0] == p then 0
    else
      var i := IndexOf(ps[1..], p);
      assert forall j | 1 <= j < |ps| :: ps[j] == ps[1..][j - 1];
      if i < 0 then -1 else i + 1
  }

  datatype Decoded = Decoded(networkType: seq<nat>, chainId: nat)

  // networkType is given by its character codes. The code throws where there is no pair of digits to match, and where
  // nothing is left for the number.
  function DecodeNetworkChainId(encoded: nat): Option<Decoded> {
    var hex := ToHex(encoded);
    var pairs := Pairs(hex);
    var separator := IndexOf(pairs, SEPARATOR) + 1;
    if |pairs| == 0 || separator * 2 == |hex| then None
    else Some(Decoded(seq(separator, i requires 0 <= i < separator => FromHex(pairs[i])), FromHex(hex[separator * 2..])))
  }

  function Codes(name: string): seq<nat> {
    seq(|name|, i requires 0 <= i < |name| => name[i] as nat)
  }

  lemma TwoDigitHex(c: char)
    requires TwoDigit(c)
    ensures ToHex(c as int) == [c as int / 16, c as int % 16] && c as int / 16 != 0
    ensures FromHex(ToHex(c as int)) == c as int
    ensures ToHex(c as int) == SEPARATOR <==> c == ':'
  {
    FromToHex(c as int);
    assert ToHex(c as int / 16) == [c as int / 16];
  }

  lemma {:induction false} NameHexPairs(name: string)
    requires forall i | 0 <= i < |name| :: TwoDigit(name[i])
    ensures |NameHex(name)| == 2 * |name|
    ensures forall i | 0 <= i < |name| :: NameHex(name)[2 * i..2 * i + 2] == ToHex(name[i] as int)
    ensures |name| > 0 ==> NameHex(name)[0] != 0
  {
    if |name| > 0 {
      TwoDigitHex(name[0]);
      NameHexPairs(name[1..]);
      forall i | 0 <= i < |name| ensures NameHex(name)[2 * i..2 * i + 2] == ToHex(name[i] as int) {
        if i > 0 {
          assert name[1..][i - 1] == name[i];
          assert NameHex(name)[2 * i..2 * i + 2] == NameHex(name[1..])[2 * (i - 1)..2 * (i - 1) + 2];
        }
      }
    }
  }

  // The encoded number's hexadecimal text is the text that was joined.
  lemma EncodedHex(name: string, chainId: nat)
    requires forall i | 0 <= i < |name| :: TwoDigit(name[i])
    ensures ToHex(EncodeNetworkChainId(name, chainId)) == NameHex(name) + SEPARATOR + ToHex(chainId)
  {
    NameHexPairs(name);
    ToFromHex(NameHex(name) + SEPARATOR + ToHex(chainId));
  }

  // The first ':' of the name, or the separator after it.
  function FirstColon(name: string): (i: nat)
    ensures i <= |name|
    ensures forall j | 0 <= j < i :: name[j] != ':'
    ensures i < |name| ==> name[i] == ':'
  {
    if |name| == 0 || name[0] == ':' then 0 else 1 + FirstColon(name[1..])
  }

  lemma EncodedPairs(name: string, chainId: nat)
    requires forall i | 0 <= i < |name| :: TwoDigit(name[i])
    ensures var pairs := Pairs(NameHex(name) + SEPARATOR + ToHex(chainId));
            && |pairs| > |name| && pairs[|name|] == SEPARATOR
            && forall i | 0 <= i < |name| :: pairs[i] == ToHex(name[i] as int)
  {
    NameHexPairs(name);
    var hex := NameHex(name) + SEPARATOR + ToHex(chainId);
    forall i | 0 <= i < |name| ensures Pairs(hex)[i] == ToHex(name[i] as int) {
      PairAt(hex, i);
      assert hex[2 * i..2 * i + 2] == NameHex(name)[2 * i..2 * i + 2];
    }
    PairAt(hex, |name|);
    assert hex[2 * |name|..2 * |name| + 2] == SEPARATOR;
  }

  // The first separator among the pairs is the first ':' of the name, or the separator put after it.
  lemma FirstSeparator(name: string, pairs: seq<Hex>)
    requires forall i | 0 <= i < |name| :: TwoDigit(name[i])
    requires |pairs| > |name| && pairs[|name|] == SEPARATOR
    requires forall i | 0 <= i < |name| :: pairs[i] == ToHex(name[i] as int)
    ensures IndexOf(pairs, SEPARATOR) == FirstColon(name)
  {
    var k := FirstColon(name);
    forall i | 0 <= i < |name| ensures pairs[i] == SEPARATOR <==> name[i] == ':' { TwoDigitHex(name[i]); }
    assert pairs[k] == SEPARATOR;
  }

  // What the decoder reads back in every case: it cuts the text at the first ':' of the name, or at the separator.
  lemma DecodedAtFirstColon(name: string, chainId: nat)
    requires forall i | 0 <= i < |name| :: TwoDigit(name[i])
    ensures var d := DecodeNetworkChainId(EncodeNetworkChainId(name, chainId));
            var k := FirstColon(name);
            var hex := NameHex(name) + SEPARATOR + ToHex(chainId);
            && (k + 1) * 2 <= |hex|
            && d.Some?
            && d.value.chainId == FromHex(hex[(k + 1) * 2..])
            && |d.value.networkType| == k + 1
            && forall i | 0 <= i < k :: d.value.networkType[i] == FromHex(ToHex(name[i] as int))
  {
    EncodedHex(name, chainId);
    EncodedPairs(name, chainId);
    FirstSeparator(name, Pairs(NameHex(name) + SEPARATOR + ToHex(chainId)));
    NameHexPairs(name);
  }

  lemma SeparatorCode(name: string, chainId: nat)
    requires forall i | 0 <= i < |name| :: TwoDigit(name[i])
    ensures var d := DecodeNetworkChainId(EncodeNetworkChainId(name, chainId));
            d.Some? && |d.value.networkType| == FirstColon(name) + 1 && d.value.networkType[FirstColon(name)] == 0x3a
  {
    DecodedAtFirstColon(name, chainId);
    EncodedHex(name, chainId);
    EncodedPairs(name, chainId);
    FirstSeparator(name, Pairs(NameHex(name) + SEPARATOR + ToHex(chainId)));
    assert FromHex(SEPARATOR) == 0x3a by {
      assert FromHex(SEPARATOR[..1]) == 3;
    }
  }

  lemma NumberFollowsSeparator(name: string, chainId: nat)
    requires forall i | 0 <= i < |name| :: TwoDigit(name[i])
    ensures var hex := NameHex(name) + SEPARATOR + ToHex(chainId);
            (|name| + 1) * 2 <= |hex| && FromHex(hex[(|name| + 1) * 2..]) == chainId
  {
    NameHexPairs(name);
    FromToHex(chainId);
    var hex := NameHex(name) + SEPARATOR + ToHex(chainId);
    assert hex[(|name| + 1) * 2..] == ToHex(chainId);
  }

  lemma DecodeWithoutColon(name: string, chainId: nat)
    requires forall i | 0 <= i < |name| :: TwoDigit(name[i]) && name[i] != ':'
    ensures DecodeNetworkChainId(EncodeNetworkChainId(name, chainId)) == Some(Decoded(Codes(name) + [0x3a], chainId))
  {
    DecodedAtFirstColon(name, chainId);
    SeparatorCode(name, chainId);
    NumberFollowsSeparator(name, chainId);
    var d := DecodeNetworkChainId(EncodeNetworkChainId(name, chainId)).value;
    forall i | 0 <= i < |name| ensures d.networkType[i] == name[i] as int { TwoDigitHex(name[i]); }
    assert d.networkType == Codes(name) + [0x3a];
  }

  /** Round trip, for every name of two-digit characters and every chain number: decoding gives back the number and the
      name followed by ':', which the decoder keeps, exactly when the name holds no ':' itself. */
  lemma DecodeEncode(name: string, chainId: nat)
    requires forall i | 0 <= i < |name| :: TwoDigit(name[i])
    ensures DecodeNetworkChainId(EncodeNetworkChainId(name, chainId)) ==
            Some(Decoded(Codes(name) + [0x3a], chainId)) <==>
            ':' !in name
  {
    if ':' in name {
      DecodedAtFirstColon(name, chainId);
    } else {
      DecodeWithoutColon(name, chainId);
    }
  }

  /** Hence distinct networks never share an encoded id. */
  lemma EncodeInjective(name1: string, id1: nat, name2: string, id2: nat)
    requires forall i | 0 <= i < |name1| :: TwoDigit(name1[i]) && name1[i] != ':'
    requires forall i | 0 <= i < |name2| :: TwoDigit(name2[i]) && name2[i] != ':'
    requires EncodeNetworkChainId(name1, id1) == EncodeNetworkChainId(name2, id2)
    ensures name1 == name2 && id1 == id2
  {
    DecodeEncode(name1, id1);
    DecodeEncode(name2, id2);
    assert Codes(name1) == (Codes(name1) + [0x3a])[..|name1|];
    assert |Codes(name1) + [0x3a]| == |Codes(name2) + [0x3a]|;
    forall i | 0 <= i < |name1| ensures name1[i] == name2[i] {
      assert (Codes(name1) + [0x3a])[i] == name1[i] as int;
      assert (Codes(name2) + [0x3a])[i] == name2[i] as int;
    }
  }

  // ---------- The number itself ----------

  function Power16(n: nat): (p: nat)
    ensures p >= 1
  {
    if n == 0 then 1 else 16 * Power16(n - 1)
  }

  lemma {:induction false} FromHexAppend(a: Hex, b: Hex)
    ensures FromHex(a + b) == FromHex(a) * Power16(|b|) + FromHex(b)
  {
    if |b| == 0 {
      assert a + b == a;
    } else {
      var n := |b| - 1;
      FromHexAppend(a, b[..n]);
      assert (a + b)[..|a| + n] == a + b[..n];
      Shift(FromHex(a), Power16(n));
    }
  }

  lemma Shift(x: nat, p: nat)
    ensures (x * p) * 16 == x * (16 * p)
  {
  }

  // The name's codes read as one number in base 256.
  function NameNumber(name: string): nat {
    if |name| == 0 then 0 else NameNumber(name[..|name| - 1]) * 256 + name[|name| - 1] as nat
  }

  lemma {:induction false} NameHexLast(name: string)
    requires |name| > 0
    ensures NameHex(name) == NameHex(name[..|name| - 1]) + ToHex(name[|name| - 1] as int)
  {
    if |name| > 1 {
      NameHexLast(name[1..]);
      assert name[1..][..|name| - 2] == name[..|name| - 1][1..];
    } else {
      assert name[1..] == "" && name[..0] == "";
    }
  }

  lemma {:induction false} NameHexNumber(name: string)
    requires forall i | 0 <= i < |name| :: TwoDigit(name[i])
    ensures FromHex(NameHex(name)) == NameNumber(name)
  {
    if |name| > 0 {
      var front, last := name[..|name| - 1], name[|name| - 1];
      NameHexNumber(front);
      NameHexLast(name);
      TwoDigitHex(last);
      FromHexAppend(NameHex(front), ToHex(last as int));
      assert Power16(2) == 256;
    }
  }

  lemma NameAndSeparator(name: string)
    requires forall i | 0 <= i < |name| :: TwoDigit(name[i])
    ensures FromHex(NameHex(name) + SEPARATOR) == NameNumber(name) * 256 + ':' as nat
  {
    NameHexNumber(name);
    assert FromHex(SEPARATOR) == 0x3a by { assert FromHex(SEPARATOR[..1]) == 3; }
    FromHexAppend(NameHex(name), SEPARATOR);
    assert Power16(2) == 256;
  }

  /** The encoded id as a number: the name's codes in base 256, then the code of ':', then as many hexadecimal digits as
      the chain number has. */
  lemma EncodedNumber(name: string, chainId: nat)
    requires forall i | 0 <= i < |name| :: TwoDigit(name[i])
    ensures EncodeNetworkChainId(name, chainId) ==
            (NameNumber(name) * 256 + ':' as nat) * Power16(|ToHex(chainId)|) + chainId
  {
    hide FromHex, ToHex, Power16, NameNumber, NameHex;
    NameAndSeparator(name);
    FromToHex(chainId);
    FromHexAppend(NameHex(name) + SEPARATOR, ToHex(chainId));
  }

  // The id of the Aleo network in the attestor's files.
  lemma AleoId()
    ensures EncodeNetworkChainId("aleo", 3) == 6694886634403
  {
    EncodedNumber("aleo", 3);
    var name := "aleo";
    assert name[..3] == "ale" && name[..3][..2] == "al" && name[..3][..2][..1] == "a";
    assert NameNumber("al") == 0x616c && NameNumber("ale") == 0x616c65;
    assert ToHex(3) == [3] && Power16(1) == 16;
  }

  // ---------- What cannot be decoded ----------

  /** Decoding fails exactly on a number of one digit and on one whose first separator is its end. */
  lemma DecodeFailsIff(encoded: nat)
    ensures DecodeNetworkChainId(encoded) == None <==>
            || encoded < 16
            || (|ToHex(encoded)| % 2 == 0 && IndexOf(Pairs(ToHex(encoded)), SEPARATOR) == |ToHex(encoded)| / 2 - 1)
  {
    OneDigit(encoded);
  }

  lemma OneDigit(n: nat)
    ensures |ToHex(n)| == 1 <==> n < 16
  {
  }

  /** Without a separator the name is empty and the whole number is the chain's. */
  lemma DecodeWithoutSeparator(encoded: nat)
    requires encoded >= 16 && forall i | 0 <= i < |Pairs(ToHex(encoded))| :: Pairs(ToHex(encoded))[i] != SEPARATOR
    ensures DecodeNetworkChainId(encoded) == Some(Decoded([], encoded))
  {
    OneDigit(encoded);
    FromToHex(encoded);
    assert ToHex(encoded)[0..] == ToHex(encoded);
    var d := DecodeNetworkChainId(encoded);
    assert d.Some? && |d.value.networkType| == 0;
  }
}
