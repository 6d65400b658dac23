/** From the text of an Aleo packet to the flat list of its tokens (chain/aleo/utils.go, trim and the start of
    parseMessage). */
module AleoTokens {
  import opened Text

  predicate Blank(c: char) { c == '{' || c == '}' || c == '[' || c == ']' || c == ' ' || c == '"' }

  // The two separators of the text.
  const SEPARATORS: set<char> := {','} + {':'}

  // trim: drops the marks above and each '\' followed by 'n'. A lone '\' stays.
  function Trim(s: string): (r: string)
    decreases |s|
  {
    if s == "" then ""
    else if |s| >= 2 && s[0] == '\\' && s[1] == 'n' then Trim(s[2..])
    else if Blank(s[0]) then Trim(s[1..])
    else [s[0]] + Trim(s[1..])
  }

  // key1:value1,key2:value2,... as key1, value1, key2, value2, ...
  function Tokens(s: string): seq<string> { Split(Trim(s), SEPARATORS) }

  method Tokenize(s: string) returns (msgs: seq<string>)
    ensures msgs == Tokens(s)
  {
    var sMessages := Split(Trim(s), {','});
    msgs := [];
    var i := 0;
    while i < |sMessages|
      invariant 0 <= i <= |sMessages|
      invariant msgs + Flatten(sMessages[i..], {':'}) == Flatten(sMessages, {':'})
    {
      var msplit := Split(sMessages[i], {':'});
      assert sMessages[i..][1..] == sMessages[i + 1..];
      msgs := msgs + msplit;
      i := i + 1;
    }
    SplitTwice(Trim(s), {','}, {':'});
  }

  // A word the tokenizer leaves alone.
  predicate Clean(w: string) {
    forall i | 0 <= i < |w| :: !Blank(w[i]) && w[i] != '\\' && w[i] !in SEPARATORS
  }

  lemma {:induction false} TrimAtSeparator(a: string, c: char, b: string)
    requires c in SEPARATORS
    ensures Trim(a + [c] + b) == Trim(a) + [c] + Trim(b)
    decreases |a|
  {
    var s := a + [c] + b;
    if a == "" {
      assert s[1..] == b;
    } else if |a| >= 2 && a[0] == '\\' && a[1] == 'n' {
      assert s[2..] == a[2..] + [c] + b;
      TrimAtSeparator(a[2..], c, b);
    } else {
      assert s[1..] == a[1..] + [c] + b;
      TrimAtSeparator(a[1..], c, b);
      assert [a[0]] + (Trim(a[1..]) + [c] + Trim(b)) == ([a[0]] + Trim(a[1..])) + [c] + Trim(b);
    }
  }

  // The tokens of two texts joined by a separator.
  lemma TokensAtSeparator(a: string, c: char, b: string)
    requires c in SEPARATORS
    ensures Tokens(a + [c] + b) == Tokens(a) + Tokens(b)
  {
    TrimAtSeparator(a, c, b);
    SplitAtSeparator(Trim(a), c, Trim(b), SEPARATORS);
  }

  lemma {:induction false} TrimBlankPrefix(pre: string, b: string)
    requires Trim(pre) == ""
    ensures Trim(pre + b) == Trim(b)
    decreases |pre|
  {
    var s := pre + b;
    if pre == "" {
      assert s == b;
    } else if |pre| >= 2 && pre[0] == '\\' && pre[1] == 'n' {
      assert s[2..] == pre[2..] + b;
      TrimBlankPrefix(pre[2..], b);
    } else {
      assert s[1..] == pre[1..] + b;
      TrimBlankPrefix(pre[1..], b);
    }
  }

  lemma {:induction false} TrimCleanPrefix(w: string, b: string)
    requires Clean(w)
    ensures Trim(w + b) == w + Trim(b)
  {
    var s := w + b;
    if w == "" {
      assert s == b;
    } else {
      assert s[1..] == w[1..] + b;
      TrimCleanPrefix(w[1..], b);
      assert [w[0]] + (w[1..] + Trim(b)) == w + Trim(b);
    }
  }

  // A clean word with blanks around it is one token.
  lemma TokensOfItem(pre: string, w: string, post: string)
    requires Trim(pre) == "" && Trim(post) == "" && Clean(w)
    ensures Tokens(pre + w + post) == [w]
  {
    assert pre + w + post == pre + (w + post);
    TrimBlankPrefix(pre, w + post);
    TrimCleanPrefix(w, post);
    assert w + "" == w;
    SplitNothing(w, SEPARATORS);
  }

  // A list of clean words separated by ", ", with blanks around it, is those tokens.
  lemma {:induction false} TokensOfList(pre: string, ws: seq<string>, post: string)
    requires Trim(pre) == "" && Trim(post) == "" && |ws| > 0
    requires forall i | 0 <= i < |ws| :: Clean(ws[i])
    ensures Tokens(pre + Join(ws, ", ") + post) == ws
    decreases |ws|
  {
    if |ws| == 1 {
      TokensOfItem(pre, ws[0], post);
    } else {
      var rest := " " + Join(ws[1..], ", ") + post;
      assert ws[0] + ", " == ws[0] + [','] + " ";
      assert pre + Join(ws, ", ") + post == (pre + ws[0] + "") + [','] + rest;
      assert Trim(" ") == "" && Trim("") == "";
      TokensOfItem(pre, ws[0], "");
      TokensOfList(" ", ws[1..], post);
      TokensAtSeparator(pre + ws[0] + "", ',', rest);
    }
  }

  lemma {:induction false} TrimEndQuote(s: string)
    ensures Trim(s + "\"") == Trim(s)
    decreases |s|
  {
    var q := s + "\"";
    if s == "" {
      assert q[1..] == "";
    } else if |s| >= 2 && s[0] == '\\' && s[1] == 'n' {
      assert q[2..] == s[2..] + "\"";
      TrimEndQuote(s[2..]);
    } else {
      assert q[1..] == s[1..] + "\"";
      assert |s| == 1 ==> q[1] == '"';
      TrimEndQuote(s[1..]);
    }
  }

  /** The quotes a text comes in from the node make no difference to its tokens. */
  lemma QuotesIgnored(s: string)
    ensures Tokens("\"" + s + "\"") == Tokens(s)
  {
    TrimEndQuote("\"" + s);
    assert ("\"" + s)[1..] == s;
  }
}
