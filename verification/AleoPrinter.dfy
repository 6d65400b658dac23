/** The printed form of an Aleo packet (proxy/main.go, serveHttp) and its tokens. */
module AleoPrinter {
  import opened AleoPacket
  import opened AleoTokens
  import opened BigEndian
  import opened Text

  // ---------- Addresses ----------

  function Padded(a: Address): (b: Bytes)
    ensures |b| == ADDRESS_TOKENS
  {
    seq(PADDING, _ => 0) + a
  }

  function ByteWord(n: nat): string { Dec(n) + "u8" }

  function Words(ns: seq<nat>): (ws: seq<string>)
    ensures |ws| == |ns|
    ensures forall i | 0 <= i < |ns| :: ws[i] == ByteWord(ns[i])
  {
    seq(|ns|, i requires 0 <= i < |ns| => ByteWord(ns[i]))
  }

  // An Ethereum address as Aleo writes it: 32 bytes, the first twelve zero.
  function PrintAddress(a: Address): string { "[ " + Join(Words(Padded(a)), ", ") + " ]" }

  function Trailed(ws: seq<string>): string {
    if |ws| == 0 then "" else Trailed(ws[..|ws| - 1]) + ws[|ws| - 1] + ", "
  }

  lemma {:induction false} JoinLast(ws: seq<string>, glue: string)
    requires |ws| > 1
    ensures Join(ws, glue) == Join(ws[..|ws| - 1], glue) + glue + ws[|ws| - 1]
  {
    var front, last := ws[..|ws| - 1], ws[|ws| - 1];
    if |ws| > 2 {
      JoinLast(ws[1..], glue);
      assert ws[1..][..|ws| - 2] == front[1..];
      var inner := Join(front[1..], glue);
      assert ws[0] + glue + (inner + glue + last) == (ws[0] + glue + inner) + glue + last;
    } else {
      assert ws[1..] == [last] && front == [ws[0]];
    }
  }

  lemma {:induction false} TrailedJoin(ws: seq<string>)
    requires |ws| > 0
    ensures Trailed(ws) == Join(ws, ", ") + ", "
  {
    var front, last := ws[..|ws| - 1], ws[|ws| - 1];
    if |ws| > 1 {
      TrailedJoin(front);
      JoinLast(ws, ", ");
      assert (Join(front, ", ") + ", ") + last + ", " == (Join(front, ", ") + ", " + last) + ", ";
    } else {
      assert "" + last == last;
    }
  }

  // One round of either loop.
  lemma AppendWord(b: Bytes, i: nat, text: string)
    requires i < |b| && text == "[ " + Trailed(Words(b)[..i])
    ensures text + Dec(b[i]) + "u8, " == "[ " + Trailed(Words(b)[..i + 1])
  {
    var ws := Words(b);
    assert ws[..i + 1][..i] == ws[..i];
    assert Dec(b[i]) + "u8, " == ws[i] + ", ";
  }

  // The comma and space after the last word are cut off.
  lemma CutLast(ws: seq<string>, text: string)
    requires |ws| > 0 && text == "[ " + Trailed(ws)
    ensures |text| >= 2 && text[..|text| - 2] == "[ " + Join(ws, ", ")
  {
    TrailedJoin(ws);
    assert text == "[ " + Join(ws, ", ") + ", ";
  }

  // constructEthAddressForAleoParameter.
  method ConstructEthAddress(a: Address) returns (s: string)
    ensures s == PrintAddress(a)
  {
    ghost var b := Padded(a);
    var aleoAddress := "[ ";
    var lenDifference := ADDRESS_TOKENS - |a|;
    assert Words(b)[..0] == [];
    for i := 0 to lenDifference
      invariant aleoAddress == "[ " + Trailed(Words(b)[..i])
    {
      AppendWord(b, i, aleoAddress);
      assert Dec(0) + "u8, " == "0u8, ";
      aleoAddress := aleoAddress + "0u8, ";
    }
    for i := lenDifference to ADDRESS_TOKENS
      invariant aleoAddress == "[ " + Trailed(Words(b)[..i])
    {
      AppendWord(b, i, aleoAddress);
      aleoAddress := aleoAddress + Dec(a[i - lenDifference]) + "u8, ";
    }
    assert Words(b)[..ADDRESS_TOKENS] == Words(b);
    CutLast(Words(b), aleoAddress);
    s := aleoAddress[..|aleoAddress| - 2] + " ]";
  }

  // ---------- The packet ----------

  function Spaces(n: nat): string { seq(n, _ => ' ') }

  // A word with what is printed before and after it. "\\n" is a backslash and an 'n'.
  function Item(pre: string, word: string, post: string): string { pre + word + post }

  function LaidHead(version: string, sequence: string): string {
    Item("{\\n" + Spaces(2), NameOf(Version), "") + ":" + Item(" ", version, "") + "," +
    Item("\\n" + Spaces(2), NameOf(Sequence), "") + ":" + Item(" ", sequence, " ")
  }

  function LaidSource(chain: string, address: string): string {
    Item("\\n" + Spaces(2), NameOf(Source), "") + ":" +
    Item(" {\\n" + Spaces(4), NameOf(ChainId), "") + ":" + Item(" ", chain, "") + "," +
    Item("\\n" + Spaces(4), NameOf(Addr), "") + ":" + Item(" ", address, "\\n" + Spaces(2) + "}")
  }

  function LaidDestination(chain: string, address: Address): string {
    Item("\\n" + Spaces(2), NameOf(Destination), "") + ":" +
    Item(" {\\n" + Spaces(4), NameOf(ChainId), "") + ":" + Item(" ", chain, "") + "," +
    Item("\\n" + Spaces(4), NameOf(Addr), "") + ":" + Item(" ", PrintAddress(address), "}")
  }

  function LaidMessage(sender: string, token: Address, amount: string, receiver: Address): string {
    Item("\\n" + Spaces(2), NameOf(Message), "") + ":" +
    Item(" {\\n" + Spaces(8), NameOf(Sender), "") + ":" + Item(" ", sender, "") + "," +
    Item("\\n" + Spaces(2), NameOf(DestToken), "") + ":" + Item(" ", PrintAddress(token), "") + "," +
    Item("\\n" + Spaces(2), NameOf(Amount), "") + ":" + Item(" ", amount, "") + "," +
    Item("\\n" + Spaces(2), NameOf(Receiver), "") + ":" +
    Item(" ", PrintAddress(receiver), "\\n" + Spaces(5) + "}")
  }

  function LaidHeight(height: string): string {
    Item("\\n" + Spaces(2), NameOf(Height), "") + ":" + Item(" ", height, "\\n}")
  }

  // %d.
  function Decimal(n: int): string { if n < 0 then "-" + Dec(-n) else Dec(n) }

  // The format string, cut at its commas between fields.
  function PrintHead(version: string, sequence: string): string {
    "{\\n  version: " + version + ",\\n  sequence: " + sequence + " "
  }

  function PrintSource(chain: string, address: string): string {
    "\\n  source: {\\n    chain_id: " + chain + ",\\n    addr: " + address + "\\n  }"
  }

  function PrintDestination(chain: string, address: string): string {
    "\\n  destination: {\\n    chain_id: " + chain + ",\\n    addr: " + address + "}"
  }

  function PrintMessage(sender: string, token: string, amount: string, receiver: string): string {
    "\\n  message: {\\n        sender_address: " + sender + ",\\n  dest_token_address: " + token +
    ",\\n  amount: " + amount + ",\\n  receiver_address: " + receiver + "\\n     }"
  }

  function PrintHeight(height: string): string { "\\n  height: " + height + "\\n}" }

  function Print(p: Packet): string {
    PrintHead(Dec(p.version) + "u8", Dec(p.sequence) + "u64") + "," +
    PrintSource(Decimal(p.sourceChain) + "u128", p.sourceAddress) + "," +
    PrintDestination(Decimal(p.destChain) + "u128", PrintAddress(p.destAddress)) + "," +
    PrintMessage(p.sender, PrintAddress(p.token), Decimal(p.amount) + "u128", PrintAddress(p.receiver)) + "," +
    PrintHeight(Dec(p.height) + "u64")
  }

  // ---------- The format's pieces are the laid-out items ----------

  // The first value after a lead-in text.
  lemma FirstLaid(names: string, lead: string, word: string, post: string)
    requires lead == names + ":" + " "
    ensures lead + word + post == names + ":" + Item(" ", word, post)
  {
  }

  // A further name and its value.
  lemma NextLaid(text: string, name: string, lead: string, word: string, post: string)
    requires lead == "," + name + ":" + " "
    ensures text + lead + word + post == text + "," + name + ":" + Item(" ", word, post)
  {
  }

  lemma HeadLeads()
    ensures "{\\n  version: " == Item("{\\n" + Spaces(2), NameOf(Version), "") + ":" + " "
    ensures ",\\n  sequence: " == "," + Item("\\n" + Spaces(2), NameOf(Sequence), "") + ":" + " "
  {
  }

  lemma HeadLaid(version: string, sequence: string)
    ensures PrintHead(version, sequence) == LaidHead(version, sequence)
  {
    HeadLeads();
    hide NameOf, Spaces;
    FirstLaid(Item("{\\n" + Spaces(2), NameOf(Version), ""), "{\\n  version: ", version, "");
    NextLaid("{\\n  version: " + version + "", Item("\\n" + Spaces(2), NameOf(Sequence), ""), ",\\n  sequence: ", sequence, " ");
    assert "{\\n  version: " + version + "" == "{\\n  version: " + version;
  }

  lemma SourceLead()
    ensures "\\n  source: {\\n    chain_id: " ==
            Item("\\n" + Spaces(2), NameOf(Source), "") + ":" + Item(" {\\n" + Spaces(4), NameOf(ChainId), "") + ":" + " "
    ensures "\\n  }" == "\\n" + Spaces(2) + "}"
  {
  }

  lemma AddressLead()
    ensures ",\\n    addr: " == "," + Item("\\n" + Spaces(4), NameOf(Addr), "") + ":" + " "
  {
  }

  lemma SourceLaid(chain: string, address: string)
    ensures PrintSource(chain, address) == LaidSource(chain, address)
  {
    SourceLead();
    AddressLead();
    hide NameOf, Spaces;
    ChainLaid(Item("\\n" + Spaces(2), NameOf(Source), "") + ":" + Item(" {\\n" + Spaces(4), NameOf(ChainId), ""),
              "\\n  source: {\\n    chain_id: ", chain, address, "\\n" + Spaces(2) + "}");
  }

  lemma ChainLaid(names: string, lead: string, chain: string, address: string, post: string)
    requires lead == names + ":" + " "
    ensures lead + chain + ",\\n    addr: " + address + post ==
            names + ":" + Item(" ", chain, "") + "," + Item("\\n" + Spaces(4), NameOf(Addr), "") + ":" +
            Item(" ", address, post)
  {
    AddressLead();
    hide NameOf, Spaces;
    FirstLaid(names, lead, chain, "");
    assert lead + chain + "" == lead + chain;
    NextLaid(lead + chain, Item("\\n" + Spaces(4), NameOf(Addr), ""), ",\\n    addr: ", address, post);
  }

  lemma DestinationLead()
    ensures "\\n  destination: {\\n    chain_id: " ==
            Item("\\n" + Spaces(2), NameOf(Destination), "") + ":" + Item(" {\\n" + Spaces(4), NameOf(ChainId), "") + ":" +
            " "
  {
  }

  lemma DestinationLaid(chain: string, address: Address)
    ensures PrintDestination(chain, PrintAddress(address)) == LaidDestination(chain, address)
  {
    DestinationLead();
    hide NameOf, Spaces, PrintAddress;
    ChainLaid(Item("\\n" + Spaces(2), NameOf(Destination), "") + ":" + Item(" {\\n" + Spaces(4), NameOf(ChainId), ""),
              "\\n  destination: {\\n    chain_id: ", chain, PrintAddress(address), "}");
  }

  lemma MessageLead()
    ensures "\\n  message: {\\n        sender_address: " ==
            Item("\\n" + Spaces(2), NameOf(Message), "") + ":" + Item(" {\\n" + Spaces(8), NameOf(Sender), "") + ":" + " "
  {
  }

  lemma TokenLead()
    ensures ",\\n  dest_token_address: " == "," + Item("\\n" + Spaces(2), NameOf(DestToken), "") + ":" + " "
  {
  }

  lemma AmountLead()
    ensures ",\\n  amount: " == "," + Item("\\n" + Spaces(2), NameOf(Amount), "") + ":" + " "
  {
  }

  lemma ReceiverLead()
    ensures ",\\n  receiver_address: " == "," + Item("\\n" + Spaces(2), NameOf(Receiver), "") + ":" + " "
    ensures "\\n     }" == "\\n" + Spaces(5) + "}"
  {
  }

  lemma MessageLaid(sender: string, token: Address, amount: string, receiver: Address)
    ensures PrintMessage(sender, PrintAddress(token), amount, PrintAddress(receiver)) ==
            LaidMessage(sender, token, amount, receiver)
  {
    MessageLead();
    TokenLead();
    AmountLead();
    ReceiverLead();
    hide NameOf, Spaces, PrintAddress;
    var lead := "\\n  message: {\\n        sender_address: ";
    var names := Item("\\n" + Spaces(2), NameOf(Message), "") + ":" + Item(" {\\n" + Spaces(8), NameOf(Sender), "");
    FirstLaid(names, lead, sender, "");
    var t1 := lead + sender;
    assert lead + sender + "" == t1;
    NextLaid(t1, Item("\\n" + Spaces(2), NameOf(DestToken), ""), ",\\n  dest_token_address: ", PrintAddress(token), "");
    var t2 := t1 + ",\\n  dest_token_address: " + PrintAddress(token);
    assert t2 + "" == t2;
    NextLaid(t2, Item("\\n" + Spaces(2), NameOf(Amount), ""), ",\\n  amount: ", amount, "");
    var t3 := t2 + ",\\n  amount: " + amount;
    assert t3 + "" == t3;
    NextLaid(t3, Item("\\n" + Spaces(2), NameOf(Receiver), ""), ",\\n  receiver_address: ", PrintAddress(receiver),
             "\\n     }");
  }

  lemma HeightLead()
    ensures "\\n  height: " == Item("\\n" + Spaces(2), NameOf(Height), "") + ":" + " "
  {
  }

  lemma HeightLaid(height: string)
    ensures PrintHeight(height) == LaidHeight(height)
  {
    HeightLead();
    hide NameOf, Spaces;
    FirstLaid(Item("\\n" + Spaces(2), NameOf(Height), ""), "\\n  height: ", height, "\\n}");
  }

  // ---------- Its tokens ----------

  predicate AllBlank(s: string) { Trim(s) == "" }

  lemma BlankThen(a: string, b: string)
    requires AllBlank(a) && AllBlank(b)
    ensures AllBlank(a + b)
  {
    TrimBlankPrefix(a, b);
  }

  lemma {:induction false} SpacesBlank(n: nat)
    ensures AllBlank(Spaces(n))
  {
    if n > 0 {
      assert Spaces(n)[1..] == Spaces(n - 1);
      SpacesBlank(n - 1);
    }
  }

  lemma Indented(line: string, n: nat)
    requires AllBlank(line)
    ensures AllBlank(line + Spaces(n))
  {
    SpacesBlank(n);
    BlankThen(line, Spaces(n));
  }

  lemma LinesBlank()
    ensures AllBlank("") && AllBlank(" ") && AllBlank("}")
    ensures AllBlank("\\n") && AllBlank("{\\n") && AllBlank(" {\\n") && AllBlank("\\n}")
  {
    assert Trim("") == "";
    assert " "[1..] == "" && "}"[1..] == "";
    assert "\\n"[2..] == "" && "{\\n"[1..] == "\\n" && " {\\n"[1..] == "{\\n" && "\\n}"[2..] == "}";
  }

  lemma FieldNamesClean(k: Kind)
    requires k == Version || k == Sequence || k == Source
    ensures Clean(NameOf(k))
  {
  }

  lemma OtherFieldNamesClean(k: Kind)
    requires k == Destination || k == Message || k == Height
    ensures Clean(NameOf(k))
  {
  }

  lemma PlaceNamesClean(k: Kind)
    requires k == ChainId || k == Addr || k == Amount
    ensures Clean(NameOf(k))
  {
  }

  lemma AddressNamesClean(k: Kind)
    requires k == DestToken || k == Sender || k == Receiver
    ensures Clean(NameOf(k))
  {
  }

  lemma NamesClean(k: Kind)
    requires k != Other
    ensures Clean(NameOf(k))
  {
    match k
    case Version | Sequence | Source => FieldNamesClean(k);
    case Destination | Message | Height => OtherFieldNamesClean(k);
    case ChainId | Addr | Amount => PlaceNamesClean(k);
    case DestToken | Sender | Receiver => AddressNamesClean(k);
  }

  lemma DecClean(n: int, suffix: string)
    requires Clean(suffix)
    ensures Clean(Decimal(n) + suffix)
  {
  }

  lemma SuffixesClean()
    ensures Clean("u8") && Clean("u64") && Clean("u128")
  {
  }

  // An item with blanks around its word, in front of the separator c, adds its word to the tokens.
  lemma ThenItem(text: string, tokens: seq<string>, c: char, pre: string, word: string, post: string)
    requires c in SEPARATORS && Tokens(text) == tokens
    requires AllBlank(pre) && AllBlank(post) && Clean(word)
    ensures Tokens(text + [c] + Item(pre, word, post)) == tokens + [word]
  {
    TokensOfItem(pre, word, post);
    TokensAtSeparator(text, c, Item(pre, word, post));
  }

  lemma ThenAddress(text: string, tokens: seq<string>, c: char, a: Address, post: string)
    requires c in SEPARATORS && Tokens(text) == tokens && AllBlank(post)
    ensures Tokens(text + [c] + Item(" ", PrintAddress(a), post)) == tokens + Words(Padded(a))
  {
    var ws := Words(Padded(a));
    forall i | 0 <= i < |ws| ensures Clean(ws[i]) { WordClean(Padded(a)[i]); }
    assert Trim(" [ ") == "" && Trim(" ]") == "" by {
      assert " [ "[1..] == "[ " && "[ "[1..] == " " && " "[1..] == "" && " ]"[1..] == "]" && "]"[1..] == "";
    }
    TrimBlankPrefix(" ]", post);
    assert Item(" ", PrintAddress(a), post) == " [ " + Join(ws, ", ") + (" ]" + post);
    TokensOfList(" [ ", ws, " ]" + post);
    TokensAtSeparator(text, c, Item(" ", PrintAddress(a), post));
  }

  lemma WordClean(n: nat)
    ensures Clean(ByteWord(n))
  {
    SuffixesClean();
    DecClean(n, "u8");
  }

  // A field name alone on its line.
  lemma ThenName(text: string, tokens: seq<string>, c: char, line: string, indent: nat, k: Kind)
    requires c in SEPARATORS && Tokens(text) == tokens && AllBlank(line) && k != Other
    ensures Tokens(text + [c] + Item(line + Spaces(indent), NameOf(k), "")) == tokens + [NameOf(k)]
  {
    Indented(line, indent);
    NamesClean(k);
    LinesBlank();
    ThenItem(text, tokens, c, line + Spaces(indent), NameOf(k), "");
  }

  lemma FirstName(line: string, indent: nat, k: Kind)
    requires AllBlank(line) && k != Other
    ensures Tokens(Item(line + Spaces(indent), NameOf(k), "")) == [NameOf(k)]
  {
    Indented(line, indent);
    NamesClean(k);
    LinesBlank();
    TokensOfItem(line + Spaces(indent), NameOf(k), "");
  }

  lemma HeadTokens(version: string, sequence: string)
    requires Clean(version) && Clean(sequence)
    ensures Tokens(LaidHead(version, sequence)) == [NameOf(Version), version, NameOf(Sequence), sequence]
  {
    LinesBlank();
    FirstName("{\\n", 2, Version);
    var t1 := Item("{\\n" + Spaces(2), NameOf(Version), "");
    ThenItem(t1, [NameOf(Version)], ':', " ", version, "");
    var t2 := t1 + ":" + Item(" ", version, "");
    ThenName(t2, [NameOf(Version), version], ',', "\\n", 2, Sequence);
    var t3 := t2 + "," + Item("\\n" + Spaces(2), NameOf(Sequence), "");
    ThenItem(t3, [NameOf(Version), version, NameOf(Sequence)], ':', " ", sequence, " ");
  }

  // The first three tokens of a chain's field; its address follows.
  lemma ChainTokens(k: Kind, chain: string)
    requires k != Other && Clean(chain)
    ensures Tokens(Item("\\n" + Spaces(2), NameOf(k), "") + ":" + Item(" {\\n" + Spaces(4), NameOf(ChainId), "") + ":" +
                   Item(" ", chain, "") + "," + Item("\\n" + Spaces(4), NameOf(Addr), "")) ==
            [NameOf(k), NameOf(ChainId), chain, NameOf(Addr)]
  {
    LinesBlank();
    FirstName("\\n", 2, k);
    var t1 := Item("\\n" + Spaces(2), NameOf(k), "");
    ThenName(t1, [NameOf(k)], ':', " {\\n", 4, ChainId);
    var t2 := t1 + ":" + Item(" {\\n" + Spaces(4), NameOf(ChainId), "");
    ThenItem(t2, [NameOf(k), NameOf(ChainId)], ':', " ", chain, "");
    var t3 := t2 + ":" + Item(" ", chain, "");
    ThenName(t3, [NameOf(k), NameOf(ChainId), chain], ',', "\\n", 4, Addr);
  }

  lemma SourceTokens(chain: string, address: string)
    requires Clean(chain) && Clean(address)
    ensures Tokens(LaidSource(chain, address)) ==
            [NameOf(Source), NameOf(ChainId), chain, NameOf(Addr)] + [address]
  {
    ChainTokens(Source, chain);
    LinesBlank();
    Indented("\\n", 2);
    BlankThen("\\n" + Spaces(2), "}");
    var text := Item("\\n" + Spaces(2), NameOf(Source), "") + ":" + Item(" {\\n" + Spaces(4), NameOf(ChainId), "") + ":" +
                Item(" ", chain, "") + "," + Item("\\n" + Spaces(4), NameOf(Addr), "");
    ThenItem(text, [NameOf(Source), NameOf(ChainId), chain, NameOf(Addr)], ':', " ", address, "\\n" + Spaces(2) + "}");
  }

  lemma DestinationTokens(chain: string, address: Address)
    requires Clean(chain)
    ensures Tokens(LaidDestination(chain, address)) ==
            [NameOf(Destination), NameOf(ChainId), chain, NameOf(Addr)] + Words(Padded(address))
  {
    ChainTokens(Destination, chain);
    LinesBlank();
    var text := Item("\\n" + Spaces(2), NameOf(Destination), "") + ":" +
                Item(" {\\n" + Spaces(4), NameOf(ChainId), "") + ":" + Item(" ", chain, "") + "," +
                Item("\\n" + Spaces(4), NameOf(Addr), "");
    ThenAddress(text, [NameOf(Destination), NameOf(ChainId), chain, NameOf(Addr)], ':', address, "}");
  }

  // The message up to the token's address.
  lemma TokenTokens(sender: string, token: Address)
    requires Clean(sender)
    ensures Tokens(Item("\\n" + Spaces(2), NameOf(Message), "") + ":" +
                   Item(" {\\n" + Spaces(8), NameOf(Sender), "") + ":" + Item(" ", sender, "") + "," +
                   Item("\\n" + Spaces(2), NameOf(DestToken), "") + ":" + Item(" ", PrintAddress(token), "")) ==
            [NameOf(Message), NameOf(Sender), sender, NameOf(DestToken)] + Words(Padded(token))
  {
    LinesBlank();
    FirstName("\\n", 2, Message);
    var t1 := Item("\\n" + Spaces(2), NameOf(Message), "");
    ThenName(t1, [NameOf(Message)], ':', " {\\n", 8, Sender);
    var t2 := t1 + ":" + Item(" {\\n" + Spaces(8), NameOf(Sender), "");
    ThenItem(t2, [NameOf(Message), NameOf(Sender)], ':', " ", sender, "");
    var t3 := t2 + ":" + Item(" ", sender, "");
    ThenName(t3, [NameOf(Message), NameOf(Sender), sender], ',', "\\n", 2, DestToken);
    var t4 := t3 + "," + Item("\\n" + Spaces(2), NameOf(DestToken), "");
    ThenAddress(t4, [NameOf(Message), NameOf(Sender), sender, NameOf(DestToken)], ':', token, "");
  }

  lemma MessageTokens(sender: string, token: Address, amount: string, receiver: Address)
    requires Clean(sender) && Clean(amount)
    ensures Tokens(LaidMessage(sender, token, amount, receiver)) ==
            [NameOf(Message), NameOf(Sender), sender, NameOf(DestToken)] + Words(Padded(token)) +
            [NameOf(Amount)] + [amount] + [NameOf(Receiver)] + Words(Padded(receiver))
  {
    LinesBlank();
    TokenTokens(sender, token);
    var front := [NameOf(Message), NameOf(Sender), sender, NameOf(DestToken)] + Words(Padded(token));
    var t1 := Item("\\n" + Spaces(2), NameOf(Message), "") + ":" +
              Item(" {\\n" + Spaces(8), NameOf(Sender), "") + ":" + Item(" ", sender, "") + "," +
              Item("\\n" + Spaces(2), NameOf(DestToken), "") + ":" + Item(" ", PrintAddress(token), "");
    ThenName(t1, front, ',', "\\n", 2, Amount);
    var t2 := t1 + "," + Item("\\n" + Spaces(2), NameOf(Amount), "");
    ThenItem(t2, front + [NameOf(Amount)], ':', " ", amount, "");
    var t3 := t2 + ":" + Item(" ", amount, "");
    ThenName(t3, front + [NameOf(Amount)] + [amount], ',', "\\n", 2, Receiver);
    var t4 := t3 + "," + Item("\\n" + Spaces(2), NameOf(Receiver), "");
    SpacesBlank(5);
    BlankThen("\\n", Spaces(5));
    BlankThen("\\n" + Spaces(5), "}");
    ThenAddress(t4, front + [NameOf(Amount)] + [amount] + [NameOf(Receiver)], ':', receiver, "\\n" + Spaces(5) + "}");
  }

  lemma HeightTokens(height: string)
    requires Clean(height)
    ensures Tokens(LaidHeight(height)) == [NameOf(Height)] + [height]
  {
    LinesBlank();
    FirstName("\\n", 2, Height);
    ThenItem(Item("\\n" + Spaces(2), NameOf(Height), ""), [NameOf(Height)], ':', " ", height, "\\n}");
  }

  // The 118 tokens of a printed packet.
  function Layout(p: Packet): seq<string> {
    ["version", Dec(p.version) + "u8", "sequence", Dec(p.sequence) + "u64"] +
    (["source", "chain_id", Decimal(p.sourceChain) + "u128", "addr"] + [p.sourceAddress]) +
    (["destination", "chain_id", Decimal(p.destChain) + "u128", "addr"] + Words(Padded(p.destAddress))) +
    (["message", "sender_address", p.sender, "dest_token_address"] + Words(Padded(p.token)) +
     ["amount"] + [Decimal(p.amount) + "u128"] + ["receiver_address"] + Words(Padded(p.receiver))) +
    (["height"] + [Dec(p.height) + "u64"])
  }

  /** The tokenizer takes a printed packet apart into exactly its words, for every packet whose two text addresses hold
      no mark, separator or backslash. */
  lemma TokensOfPrinted(p: Packet)
    requires Clean(p.sourceAddress) && Clean(p.sender)
    ensures Tokens(Print(p)) == Layout(p)
  {
    SuffixesClean();
    var version, sequence, height := Dec(p.version) + "u8", Dec(p.sequence) + "u64", Dec(p.height) + "u64";
    var source, dest, amount := Decimal(p.sourceChain) + "u128", Decimal(p.destChain) + "u128", Decimal(p.amount) + "u128";
    DecClean(p.version, "u8");
    DecClean(p.sequence, "u64");
    DecClean(p.height, "u64");
    DecClean(p.sourceChain, "u128");
    DecClean(p.destChain, "u128");
    DecClean(p.amount, "u128");
    HeadTokens(version, sequence);
    SourceTokens(source, p.sourceAddress);
    DestinationTokens(dest, p.destAddress);
    MessageTokens(p.sender, p.token, amount, p.receiver);
    HeightTokens(height);
    HeadLaid(version, sequence);
    SourceLaid(source, p.sourceAddress);
    DestinationLaid(dest, p.destAddress);
    MessageLaid(p.sender, p.token, amount, p.receiver);
    HeightLaid(height);
    NamesSpelled();
    FiveParts(LaidHead(version, sequence), LaidSource(source, p.sourceAddress), LaidDestination(dest, p.destAddress),
              LaidMessage(p.sender, p.token, amount, p.receiver), LaidHeight(height));
  }

  lemma FiveParts(a: string, b: string, c: string, d: string, e: string)
    ensures Tokens(a + "," + b + "," + c + "," + d + "," + e) == Tokens(a) + Tokens(b) + Tokens(c) + Tokens(d) + Tokens(e)
  {
    TokensAtSeparator(a, ',', b);
    TokensAtSeparator(a + "," + b, ',', c);
    TokensAtSeparator(a + "," + b + "," + c, ',', d);
    TokensAtSeparator(a + "," + b + "," + c + "," + d, ',', e);
  }
}
