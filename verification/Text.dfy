/** The string operations the Aleo packet parser is built from (Go's strings, strconv and math/big), and how each acts
    on text put together from pieces. */
module Text {
  import opened Wrappers

  // ---------- Splitting and joining ----------

  // strings.Split for a one-character separator; with several characters, a split at any of them.
  function Split(s: string, at: set<char>): (parts: seq<string>)
    ensures |parts| > 0
  {
    if s == "" then [""]
    else
      var rest := Split(s[1..], at);
      if s[0] in at then [""] + rest else [[s[0]] + rest[0]] + rest[1..]
  }

  // strings.Join.
  function Join(parts: seq<string>, glue: string): string {
    if |parts| == 0 then ""
    else if |parts| == 1 then parts[0]
    else parts[0] + glue + Join(parts[1..], glue)
  }

  lemma {:induction false} SplitAtSeparator(a: string, c: char, b: string, at: set<char>)
    requires c in at
    ensures Split(a + [c] + b, at) == Split(a, at) + Split(b, at)
  {
    var s := a + [c] + b;
    if a == "" {
      assert s[1..] == b;
    } else {
      assert s[1..] == a[1..] + [c] + b;
      SplitAtSeparator(a[1..], c, b, at);
    }
  }

  lemma {:induction false} SplitNothing(s: string, at: set<char>)
    requires forall i | 0 <= i < |s| :: s[i] !in at
    ensures Split(s, at) == [s]
  {
    if s != "" {
      SplitNothing(s[1..], at);
      assert [s[0]] + s[1..] == s;
    }
  }

  function Flatten(parts: seq<string>, at: set<char>): seq<string> {
    if |parts| == 0 then [] else Split(parts[0], at) + Flatten(parts[1..], at)
  }

  // Splitting in two rounds is splitting once at either kind of separator.
  lemma {:induction false} SplitTwice(s: string, first: set<char>, second: set<char>)
    ensures Flatten(Split(s, first), second) == Split(s, first + second)
  {
    if s == "" {
      assert Split("", first)[1..] == [];
    } else {
      var rest := Split(s[1..], first);
      SplitTwice(s[1..], first, second);
      if s[0] in first {
        assert Split(s, first)[1..] == rest;
        assert Split("", second) == [""];
      } else {
        assert Split(s, first)[1..] == rest[1..];
        FlattenHead(s[0], rest, second);
      }
    }
  }

  lemma FlattenHead(c: char, rest: seq<string>, at: set<char>)
    requires |rest| > 0
    ensures Flatten([[c] + rest[0]] + rest[1..], at) ==
            var f := Flatten(rest, at);
            if |f| == 0 then [] else if c in at then [""] + f else [[c] + f[0]] + f[1..]
  {
    var s := [c] + rest[0];
    assert s[1..] == rest[0];
    assert ([s] + rest[1..])[1..] == rest[1..];
  }

  // Text split at a character that none of the parts holds comes back part by part.
  lemma {:induction false} SplitJoin(parts: seq<string>, c: char)
    requires |parts| > 0
    requires forall i, k | 0 <= i < |parts| && 0 <= k < |parts[i]| :: parts[i][k] != c
    ensures Split(Join(parts, [c]), {c}) == parts
  {
    SplitNothing(parts[0], {c});
    if |parts| > 1 {
      SplitAtSeparator(parts[0], c, Join(parts[1..], [c]), {c});
      forall i, k | 0 <= i < |parts| - 1 && 0 <= k < |parts[1..][i]| ensures parts[1..][i][k] != c {
        assert parts[1..][i] == parts[i + 1];
      }
      SplitJoin(parts[1..], c);
    }
  }

  // ---------- Replacing ----------

  // strings.Replace(s, unit, "", 1).
  function RemoveFirst(s: string, unit: string): (r: string)
    requires unit != ""
  {
    if unit <= s then s[|unit|..]
    else if s == "" then "" else [s[0]] + RemoveFirst(s[1..], unit)
  }

  // strings.ReplaceAll(s, unit, "").
  function RemoveAll(s: string, unit: string): (r: string)
    requires unit != ""
    decreases |s|
  {
    if unit <= s then RemoveAll(s[|unit|..], unit)
    else if s == "" then "" else [s[0]] + RemoveAll(s[1..], unit)
  }

  // strings.Count.
  function Count(s: string, unit: string): (n: nat)
    requires unit != ""
    decreases |s|
  {
    if unit <= s then 1 + Count(s[|unit|..], unit)
    else if s == "" then 0 else Count(s[1..], unit)
  }

  // strings.Trim(s, " ").
  function TrimSpaces(s: string): string {
    if |s| > 0 && s[0] == ' ' then TrimSpaces(s[1..])
    else if |s| > 0 && s[|s| - 1] == ' ' then TrimSpaces(s[..|s| - 1])
    else s
  }

  // Text before an occurrence, free of its first character, is passed over unchanged.
  lemma {:induction false} RemoveFirstPast(a: string, unit: string, b: string)
    requires unit != "" && unit[0] !in a
    ensures RemoveFirst(a + unit + b, unit) == a + b
  {
    var s := a + unit + b;
    if a == "" {
      assert s == unit + b;
      assert s[|unit|..] == b;
    } else {
      assert s[0] == a[0] && !(unit <= s);
      assert s[1..] == a[1..] + unit + b;
      RemoveFirstPast(a[1..], unit, b);
      assert [a[0]] + (a[1..] + b) == a + b;
    }
  }

  lemma {:induction false} RemoveAllPast(a: string, unit: string, b: string)
    requires unit != "" && unit[0] !in a
    ensures RemoveAll(a + unit + b, unit) == a + RemoveAll(b, unit)
  {
    var s := a + unit + b;
    if a == "" {
      assert s == unit + b;
      assert s[|unit|..] == b;
    } else {
      assert s[0] == a[0] && !(unit <= s);
      assert s[1..] == a[1..] + unit + b;
      RemoveAllPast(a[1..], unit, b);
      assert [a[0]] + (a[1..] + RemoveAll(b, unit)) == a + RemoveAll(b, unit);
    }
  }

  lemma {:induction false} CountPast(a: string, unit: string, b: string)
    requires unit != "" && unit[0] !in a
    ensures Count(a + unit + b, unit) == 1 + Count(b, unit)
  {
    var s := a + unit + b;
    if a == "" {
      assert s == unit + b;
      assert s[|unit|..] == b;
    } else {
      assert s[0] == a[0] && !(unit <= s);
      assert s[1..] == a[1..] + unit + b;
      CountPast(a[1..], unit, b);
    }
  }

  // ---------- Numbers ----------

  function DigitChar(d: nat): char
    requires d < 10
  {
    '0' + d as char
  }

  // %d of a number that is not negative.
  function Dec(n: nat): (s: string)
    ensures |s| > 0
    ensures forall i | 0 <= i < |s| :: '0' <= s[i] <= '9'
    ensures s[0] == '0' ==> s == "0"
  {
    if n < 10 then [DigitChar(n)] else Dec(n / 10) + [DigitChar(n % 10)]
  }

  function DigitValue(c: char): nat {
    if '0' <= c <= '9' then (c - '0') as nat
    else if 'a' <= c <= 'z' then (c - 'a') as nat + 10
    else if 'A' <= c <= 'Z' then (c - 'A') as nat + 10
    else 36
  }

  function Positional(n: nat, base: nat, d: nat): nat { n * base + d }

  function Digits(s: string, base: nat): Option<nat>
    requires 2 <= base <= 36
  {
    if s == "" then None
    else
      var d := DigitValue(s[|s| - 1]);
      if d >= base then None
      else if |s| == 1 then Some(d)
      else match Digits(s[..|s| - 1], base)
           case None => None
           case Some(n) => Some(Positional(n, base, d))
  }

  // An optional sign in front of a number (big.Int.SetString).
  function Signed(s: string, number: string -> Option<nat>): Option<int> {
    if s != "" && (s[0] == '-' || s[0] == '+') then
      match number(s[1..])
      case None => None
      case Some(n) => var v: int := if s[0] == '-' then -(n as int) else n; Some(v)
    else match number(s)
         case None => None
         case Some(n) => Some(n as int)
  }

  function Base10(s: string): Option<nat> { Digits(s, 10) }

  // Base 0: the base comes from the prefix of the text.
  function Base0(s: string): Option<nat> {
    if |s| >= 2 && s[0] == '0' then
      if s[1] == 'x' || s[1] == 'X' then Digits(s[2..], 16)
      else if s[1] == 'o' || s[1] == 'O' then Digits(s[2..], 8)
      else if s[1] == 'b' || s[1] == 'B' then Digits(s[2..], 2)
      else Digits(s[1..], 8)
    else Digits(s, 10)
  }

  lemma {:induction false} DigitsDec(n: nat)
    ensures Digits(Dec(n), 10) == Some(n)
  {
    if n >= 10 {
      DigitsDec(n / 10);
      var s := Dec(n);
      assert s[..|s| - 1] == Dec(n / 10);
    }
  }

  // A printed number reads back, in base 10 and in base 0, signed or not.
  lemma ReadDec(n: nat)
    ensures Base10(Dec(n)) == Base0(Dec(n)) == Some(n)
    ensures Signed(Dec(n), Base10) == Signed(Dec(n), Base0) == Some(n)
  {
    DigitsDec(n);
    assert '0' <= Dec(n)[0] <= '9';
  }

  // ---------- Numbers in other bases ----------

  function DigitIn(d: nat, upper: bool): char
    requires d < 36
  {
    if d < 10 then '0' + d as char else if upper then 'A' + (d - 10) as char else 'a' + (d - 10) as char
  }

  // A number written in a base, with letters of either case.
  function InBase(n: nat, base: nat, upper: bool): (s: string)
    requires 2 <= base <= 36
    ensures |s| > 0
    decreases n
  {
    if n < base then [DigitIn(n, upper)]
    else
      Smaller(n, base);
      InBase(n / base, base, upper) + [DigitIn(n % base, upper)]
  }

  lemma TwiceAtMost(q: nat, d: nat)
    ensures q + q <= q * (d + 2)
  {
    assert q * (d + 2) == q * d + q * 2;
  }

  lemma Parts(n: nat, base: nat)
    requires base >= 1
    ensures n == (n / base) * base + n % base
  {
  }

  lemma Smaller(n: nat, base: nat)
    requires base >= 2 && n >= base
    ensures n / base < n && n == Positional(n / base, base, n % base)
  {
    Parts(n, base);
    TwiceAtMost(n / base, base - 2);
  }

  lemma DigitRead(d: nat, upper: bool)
    requires d < 36
    ensures DigitValue(DigitIn(d, upper)) == d
  {
  }

  lemma {:induction false} DigitsInBase(n: nat, base: nat, upper: bool)
    requires 2 <= base <= 36
    ensures Digits(InBase(n, base, upper), base) == Some(n)
    decreases n
  {
    if n < base {
      DigitRead(n, upper);
    } else {
      Smaller(n, base);
      DigitsInBase(n / base, base, upper);
      DigitRead(n % base, upper);
      var s := InBase(n, base, upper);
      assert s[..|s| - 1] == InBase(n / base, base, upper);
    }
  }

  lemma {:induction false} DigitsOfBase(n: nat, base: nat, upper: bool)
    requires 2 <= base <= 36
    ensures forall i | 0 <= i < |InBase(n, base, upper)| :: DigitValue(InBase(n, base, upper)[i]) < base
    decreases n
  {
    if n < base {
      DigitRead(n, upper);
    } else {
      Smaller(n, base);
      DigitsOfBase(n / base, base, upper);
      DigitRead(n % base, upper);
    }
  }

  /** Base 0 takes the base from the prefix: 0x for 16, 0o or a bare 0 for 8, 0b for 2, of either case, and 10 without. */
  lemma Base0Prefixes(n: nat, upper: bool)
    ensures Base0("0x" + InBase(n, 16, upper)) == Base0("0X" + InBase(n, 16, upper)) == Some(n)
    ensures Base0("0o" + InBase(n, 8, upper)) == Base0("0O" + InBase(n, 8, upper)) == Some(n)
    ensures Base0("0b" + InBase(n, 2, upper)) == Base0("0B" + InBase(n, 2, upper)) == Some(n)
    ensures Base0("0" + InBase(n, 8, upper)) == Some(n)
    ensures Base0(Dec(n)) == Some(n)
  {
    PrefixRead("0x", InBase(n, 16, upper), n, 16, upper);
    PrefixRead("0X", InBase(n, 16, upper), n, 16, upper);
    PrefixRead("0o", InBase(n, 8, upper), n, 8, upper);
    PrefixRead("0O", InBase(n, 8, upper), n, 8, upper);
    PrefixRead("0b", InBase(n, 2, upper), n, 2, upper);
    PrefixRead("0B", InBase(n, 2, upper), n, 2, upper);
    BareZeroRead(n, upper);
    ReadDec(n);
  }

  lemma PrefixRead(prefix: string, digits: string, n: nat, base: nat, upper: bool)
    requires |prefix| == 2 && prefix[0] == '0'
    requires match base
             case 16 => prefix[1] in {'x', 'X'}
             case 8 => prefix[1] in {'o', 'O'}
             case 2 => prefix[1] in {'b', 'B'}
             case _ => false
    requires digits == InBase(n, base, upper)
    ensures Base0(prefix + digits) == Some(n)
  {
    DigitsInBase(n, base, upper);
    assert (prefix + digits)[2..] == digits;
  }

  lemma BareZeroRead(n: nat, upper: bool)
    ensures Base0("0" + InBase(n, 8, upper)) == Some(n)
  {
    var digits := InBase(n, 8, upper);
    DigitsInBase(n, 8, upper);
    DigitsOfBase(n, 8, upper);
    assert ("0" + digits)[1..] == digits;
    assert ("0" + digits)[1] == digits[0];
  }

  /** In base 10 exactly the digits 0 to 9 are read, and at least one of them. */
  lemma {:induction false} Base10Iff(s: string)
    ensures Base10(s).Some? <==> s != "" && forall i | 0 <= i < |s| :: '0' <= s[i] <= '9'
  {
    if |s| > 1 {
      var front := s[..|s| - 1];
      Base10Iff(front);
      assert forall i | 0 <= i < |front| :: front[i] == s[i];
    }
  }
}
